/** The cache of src/cache/cache.c: each entry is in a hash table and, unless it is taken, in a list
    ordered by time; nearly every operation first throws out what has expired. */
module Caches {
  import opened Memory
  import opened Clocks
  import opened Primes
  import opened HashTables
  import opened CacheLists
  import opened CacheStates

  /** SFTFS_CACHE_OK and SFTFS_CACHE_UNEXPECTED_ENTRY */
  datatype Status = Ok | UnexpectedEntry

  /** Of the listed nodes, `ns` has exactly those in table entries before position (b, k). */
  ghost predicate Visited(chains: seq<seq<Ptr>>, nodes: seq<Ptr>, ns: seq<Ptr>, b: nat, k: nat) {
    forall i, j :: 0 <= i < |chains| && 0 <= j < |chains[i]| && NodeOf(chains[i][j]) in nodes ==>
      (NodeOf(chains[i][j]) in ns <==> i < b || (i == b && j < k))
  }

  lemma NotYet(chains: seq<seq<Ptr>>, nodes: seq<Ptr>, ns: seq<Ptr>, b: nat, k: nat)
    requires Visited(chains, nodes, ns, b, k) && b < |chains| && k < |chains[b]|
    ensures NodeOf(chains[b][k]) in nodes ==> NodeOf(chains[b][k]) !in ns
  {
  }

  /** Every listed node's block is in the table. */
  ghost predicate NodesHoused(data: map<Ptr, Ptr>, hash: map<Ptr, nat>, nodes: seq<Ptr>) {
    forall n :: n in nodes ==> n in data && data[n] in hash && NodeOf(data[n]) == n
  }

  class Cache<F> {
    var table: HashTable
    const list: CacheList
    // What is read through a pointer to a node that another cache owns: the table entry the node
    // points back at, and that entry's hash.
    const outside: Ptr -> Entry
    var data: map<Ptr, Ptr>
    var body: map<Ptr, F>
    ghost var serial: map<Ptr, nat>
    ghost var log: seq<nat>
    ghost var fate: seq<Fate>

    ghost function View(): State<F>
      reads this, table, list
    {
      State(table.hash, data, body, list.nodes, list.modTime, serial, log, fate)
    }

    ghost predicate Valid()
      reads this, table, table.buckets, list, list.clock
    {
      && table.Valid() && list.Valid()
      && View().Valid()
    }

    static lemma EmptyValid()
      ensures State<F>.State(map[], map[], map[], [], map[], map[], [], []).Valid()
    {
    }

    ghost function Repr(): set<object>
      reads this, table
    {
      {this, table, table.buckets, list, list.clock}
    }

    /** sftfs_cache_construct */
    constructor (clock: Clock, ttl: nat, outside: Ptr -> Entry)
      requires clock.Valid() && clock.horizon + ttl < TIME_LIMIT
      ensures Valid() && fresh(table) && fresh(table.buckets) && fresh(list) && list.clock == clock && list.ttl == ttl
      ensures this.outside == outside
      ensures View() == State(map[], map[], map[], [], map[], map[], [], [])
    {
      hide HashTable.Valid, CacheList.Valid;
      EmptyValid();
      var newTable := HashTable.Create(0);
      table := newTable;
      list := new CacheList(clock, ttl);
      this.outside := outside;
      data, body := map[], map[];
      serial, log, fate := map[], [], [];
    }

    // call_on_evict
    ghost method CallOnEvict(node: Ptr)
      requires node in serial && serial[node] < |fate|
      modifies `serial, `log, `fate
      ensures View() == old(View()).Report(node)
    {
      log, fate := log + [serial[node]], fate[serial[node] := Reported];
      serial := serial - {node};
    }

    // The entry of a node that is not listed leaves the table, and its block is freed.
    method FreeEntry(node: Ptr)
      requires Valid() && node in data && node !in list.nodes
      modifies this, table, table.buckets, list
      ensures Valid() && table == old(table)
      ensures old(View()).Freeable(node) && View() == old(View()).Free(node)
      ensures table.FrontsKept()
    {
      hide HashTable.Valid, CacheList.Valid, State.Valid, State.Linked, State.Listed, State.Accounted;
      hide Contents.HasInFront;
      View().Known(node);
      View().FreeValid(node);
      table.FindAndRemove(Entry(data[node], table.hash[data[node]]));
      list.FreeNode(node);
      fate := if node in serial then fate[serial[node] := Dropped] else fate;
      data, body, serial := data - {node}, body - {node}, serial - {node};
    }

    /** evict_invalid_lru_entries */
    method EvictInvalid()
      requires Valid()
      modifies this, table, table.buckets, list, list.clock
      ensures Valid() && table == old(table) && list.clock.Ran()
      ensures View() == old(View()).Evict(list.ttl, list.clock.now)
      ensures list.nodes != [] || old(list.nodes) != [] ==> list.clock.count > old(list.clock.count)
      ensures table.FrontsKept()
    {
      hide HashTable.Valid, CacheList.Valid, State.Valid, SameFuture, Listing.Drop, Contents.HasInFront, Without;
      ghost var start, ttl := View(), list.ttl;
      FutureStarts(start, ttl, list.clock.now);
      while true
        invariant Valid() && table == old(table) && list.clock.Ran()
        invariant start == old(View()) && ttl == list.ttl && start.Valid()
        invariant SameFuture(start, View(), ttl, list.clock.now)
        invariant list.nodes == old(list.nodes) || list.clock.count > old(list.clock.count)
        invariant table.FrontsKept()
        decreases |list.nodes|
      {
        ghost var s, t := View(), list.clock.now;
        if s.nodes != [] {
          s.EvictingSteps();
          WithoutParts(s.nodes, 0);
        }
        var node := list.EvictInvalidLru();
        if node == NULL {
          FutureEnds(start, s, ttl, t, list.clock.now);
          break;
        }
        FutureStep(start, s, ttl, t, list.clock.now);
        CallOnEvict(node);
        FreeEntry(node);
      }
    }

    // to_htable_entry, together with the hash of the entry it leads to.
    function EntryOf(node: Ptr): Entry
      requires node in data ==> data[node] in table.hash
      reads this, table
    {
      if node in data then Entry(data[node], table.hash[data[node]]) else outside(node)
    }

    /** The node is this cache's, or a live node of another cache. */
    ghost predicate Readable(node: Ptr)
      reads this, table
    {
      if node in data then data[node] in table.hash && data[node] != NULL
      else outside(node).addr != NULL && outside(node).addr !in table.hash
    }

    lemma OwnReadable(node: Ptr)
      requires Valid() && node in data
      ensures Readable(node)
    {
    }

    // sftfs_cache_alloc after it has evicted.
    method AddEntry(h: nat) returns (node: Ptr, ghost entry: Ptr)
      requires Valid()
      modifies this, table, table.buckets, list
      ensures Valid() && fresh({table, table.buckets} - old({table, table.buckets}))
      ensures entry !in old(table.hash) && entry != NULL && node == NodeOf(entry) && node !in old(data)
      ensures View() == old(View()).Add(node, entry, h)
    {
      hide HashTable.Valid, CacheList.Valid, State.Valid, PRIMES, Contents.Insert;
      hide HashTable.RoomFor, HashTable.Deref, Listing.Allocate;
      NodesOwned();
      ghost var s := View();
      var table', link := HashTable.NewEntry(table, h);
      var e := table'.Deref(link);
      node, entry := NodeOf(e), e;
      s.AddValid(node, e, h);
      table := table';
      list.AllocateNode(node);
      serial, fate := serial[node := |fate|], fate + [Held(node)];
      data := data[node := e];
    }

    /** sftfs_cache_alloc */
    method Alloc(h: nat) returns (node: Ptr, ghost entry: Ptr)
      requires Valid()
      modifies this, table, table.buckets, list, list.clock
      ensures Valid() && fresh({table, table.buckets} - old({table, table.buckets}))
      ensures list.clock.Ran()
      ensures var s := old(View()).Evict(list.ttl, list.clock.now);
        && entry !in s.hash && entry != NULL && node == NodeOf(entry) && node !in s.data
        && View() == s.Add(node, entry, h)
    {
      hide HashTable.Valid, CacheList.Valid, State.Valid;
      EvictInvalid();
      node, entry := AddEntry(h);
    }

    lemma NodesOwned()
      requires list.Valid() && View().Valid()
      ensures list.next.Keys == data.Keys
    {
    }

    lemma NullNotNode()
      requires Valid()
      ensures NULL !in data
    {
    }

    /** sftfs_cache_free: for entries that are taken. */
    method Free(node: Ptr) returns (status: Status)
      requires Valid() && node !in list.nodes && (node != NULL ==> Readable(node))
      modifies this, table, table.buckets, list, list.clock
      ensures Valid() && table == old(table) && list.clock.Ran()
      ensures status == Ok <==> node == NULL || node in old(data)
      ensures View() == old(View()).Freed(node, list.ttl, list.clock.now)
    {
      hide HashTable.Valid, CacheList.Valid, State.Valid;
      NullNotNode();
      if node == NULL {
        return Ok;
      }
      var found := table.Contains(EntryOf(node));
      if !found {
        return UnexpectedEntry;
      }
      View().FreeValid(node);
      FreeEntry(node);
      EvictInvalid();
      return Ok;
    }

    /** sftfs_cache_take: an entry that is taken already can be taken again, and stays taken. */
    method Take(node: Ptr) returns (taken: Ptr)
      requires Valid() && Readable(node)
      modifies this, table, table.buckets, list, list.clock
      ensures Valid() && table == old(table) && list.clock.Ran()
      ensures taken == if node in old(data) then node else NULL
      ensures View() == old(View()).Taken(node, list.ttl, list.clock.now)
    {
      hide HashTable.Valid, CacheList.Valid, State.Valid;
      var found := table.Contains(EntryOf(node));
      if !found {
        return NULL;
      }
      View().TakeValid(node);
      NodesOwned();
      list.Remove(node);
      EvictInvalid();
      return node;
    }

    // Writing through sftfs_cache_entry_data.
    method SetBody(node: Ptr, f: F)
      requires Valid() && node in data
      modifies `body
      ensures Valid() && View() == old(View()).SetBody(node, f)
    {
      hide HashTable.Valid, CacheList.Valid, State.Valid;
      View().SetBodyValid(node, f);
      body := body[node := f];
    }

    /** sftfs_cache_contains */
    method Contains(node: Ptr) returns (r: bool)
      requires Valid() && Readable(node)
      ensures r <==> node in data
    {
      r := table.Contains(EntryOf(node));
    }

    /** sftfs_cache_contains_unlisted */
    method ContainsUnlisted(node: Ptr) returns (r: bool)
      requires Valid() && Readable(node)
      ensures r <==> node in data && node !in list.nodes
    {
      hide HashTable.Valid, CacheList.Valid, State.Valid;
      r := table.Contains(EntryOf(node));
      if r {
        NodesOwned();
        r := list.NodeUnlinked(node);
      }
    }

    /** sftfs_cache_give: a taken entry becomes the most recent one, and one still listed is refused. The
        latter must not be able to expire, as eviction comes first and frees what has expired. */
    method Give(node: Ptr) returns (status: Status, ghost t: nat)
      requires Valid() && Readable(node) && (node in data && node !in list.nodes ==> node in serial)
      requires node in list.nodes && node in list.modTime ==> !Expired(list.modTime[node], list.ttl, list.clock.horizon)
      modifies this, table, table.buckets, list, list.clock
      ensures Valid() && table == old(table) && list.clock.Ran() && old(list.clock.now) <= t <= list.clock.now
      ensures status == Ok <==> node in old(data) && node !in old(list.nodes)
      ensures status == Ok ==> list.clock.count > old(list.clock.count)
      ensures View() == old(View()).Given(node, list.ttl, t, list.clock.now)
      ensures table.FrontsKept()
    {
      hide HashTable.Valid, CacheList.Valid, State.Valid, Contents.HasInFront;
      EvictAround(node);
      t := list.clock.now;
      ghost var s := View();
      var ok := ContainsUnlisted(node);
      if !ok {
        return UnexpectedEntry, t;
      }
      NodesOwned();
      list.StampsPast();
      list.Insert(node);
      s.EnlistValid(node, list.clock.now);
      return Ok, t;
    }

    // evict_invalid_lru_entries, where it leaves this node as it was.
    method EvictAround(node: Ptr)
      requires Valid() && Readable(node)
      requires node in list.nodes && node in list.modTime ==> !Expired(list.modTime[node], list.ttl, list.clock.horizon)
      modifies this, table, table.buckets, list, list.clock
      ensures Valid() && table == old(table) && list.clock.Ran()
      ensures View() == old(View()).Evict(list.ttl, list.clock.now)
      ensures Readable(node) && (node in data <==> node in old(data))
      ensures (node in list.nodes <==> node in old(list.nodes)) && (node in old(serial) ==> node in serial)
      ensures table.FrontsKept()
    {
      hide HashTable.Valid, CacheList.Valid, State.Valid, Contents.HasInFront;
      ghost var s := View();
      EvictInvalid();
      ghost var t := list.clock.now;
      if node in s.nodes {
        s.ListedKnown();
        InTime();
        s.EvictKeepsLive(node, list.ttl, t);
        View().ListedKnown();
      } else {
        s.EvictKeepsTaken(node, list.ttl, t);
      }
      s.EvictShrinks(list.ttl, t);
      StillReadable(node, s.data, s.hash);
    }

    lemma InTime()
      requires Valid()
      ensures list.clock.now <= list.clock.horizon
    {
    }

    lemma StillReadable(node: Ptr, data0: map<Ptr, Ptr>, hash0: map<Ptr, nat>)
      requires Valid() && table.hash.Keys <= hash0.Keys && (node in data <==> node in data0)
      requires node !in data0 ==> outside(node).addr != NULL && outside(node).addr !in hash0
      ensures Readable(node)
    {
    }

    /** sftfs_cache_invalidate, on an entry that has no outcome yet. */
    method Invalidate(node: Ptr) returns (status: Status, ghost t: nat)
      requires Valid() && Readable(node) && (node in data ==> node in serial)
      modifies this, table, table.buckets, list, list.clock
      ensures Valid() && table == old(table) && list.clock.Ran() && old(list.clock.now) <= t <= list.clock.now
      ensures status == Ok <==> node in old(data)
      ensures View() == old(View()).Invalidated(node, list.ttl, t, list.clock.now)
    {
      hide HashTable.Valid, CacheList.Valid, State.Valid;
      NullNotNode();
      ghost var s := View();
      var taken := Take(node);
      t := list.clock.now;
      if taken == NULL {
        return UnexpectedEntry, t;
      }
      s.InvalidatingSteps(node, list.ttl, t);
      CallOnEvict(taken);
      OwnReadable(taken);
      ghost var reported := View();
      status := Free(taken);
      ghost var t1 := list.clock.now;
      EvictInvalid();
      reported.FreeValid(node);
      reported.Free(node).EvictTwice(list.ttl, t1, list.clock.now);
    }

    /** sftfs_cache_rehash_entry */
    method RehashEntry(node: Ptr, newHash: nat) returns (status: Status)
      requires Valid() && Readable(node)
      modifies this, table, table.buckets
      ensures Valid() && table == old(table)
      ensures status == Ok <==> node in data
      ensures View() == old(View()).Rehashed(node, newHash)
      ensures status == Ok ==> table.View().HasInFront(data[node])
    {
      hide HashTable.Valid, CacheList.Valid, State.Valid, Contents.HasInFront;
      View().RehashedValid(node, newHash);
      var found := table.FindAndRehash(EntryOf(node), newHash);
      status := if found then Ok else UnexpectedEntry;
    }

    /** The chain that holds the entries with hash `h`. */
    ghost function ChainOf(h: nat): seq<Ptr>
      requires table.Valid()
      reads this, table, table.buckets
    {
      table.View().ChainOf(h)
    }

    /** Position `i` of the chain for hash `h` holds a listed entry with that hash. */
    ghost predicate Match(h: nat, i: nat)
      requires table.Valid()
      reads this, table, table.buckets, list
    {
      i < |ChainOf(h)| && ChainOf(h)[i] in table.hash && table.hash[ChainOf(h)[i]] == h
      && NodeOf(ChainOf(h)[i]) in list.nodes
    }

    /** `node` is the first match from position `k` on, and it is at position `j`; NULL if none is. */
    ghost predicate NextMatch(h: nat, k: nat, node: Ptr, j: nat)
      requires table.Valid()
      reads this, table, table.buckets, list
    {
      && k <= j
      && (forall i :: k <= i < j ==> !Match(h, i))
      && if j < |ChainOf(h)| then Match(h, j) && node == NodeOf(ChainOf(h)[j]) else node == NULL
    }

    lemma EntryHasNode(e: Ptr)
      requires Valid() && e in table.hash
      ensures NodeOf(e) in data && data[NodeOf(e)] == e && NodeOf(e) in list.next && NodeOf(e) in list.prev
      ensures NodeOf(e) != NULL
    {
    }

    // Between a position and what the next search finds there is no match.
    lemma SkipsOthers(h: nat, j: nat)
      requires Valid() && j < |ChainOf(h)|
      ensures forall i :: j < i < table.View().Search(h, j + 1) ==> !Match(h, i)
    {
      table.View().ChainsHold();
    }

    // An entry with the hash is a match exactly if its node is listed.
    lemma AtMatch(h: nat, j: nat)
      requires Valid() && j < |ChainOf(h)| && ChainOf(h)[j] in table.hash && table.hash[ChainOf(h)[j]] == h
      ensures Match(h, j) <==> NodeOf(ChainOf(h)[j]) in list.nodes
    {
    }

    // find_listed_entry, from the link at position `k0`: with `exact` false it is known that
    // another listed entry was found before.
    method FindListed(h: nat, link0: Link, ghost k0: nat, exact: bool, ghost found: Ptr)
        returns (node: Ptr, ghost j: nat)
      requires Valid() && k0 <= |ChainOf(h)| && link0 == table.LinkAt(Home(h, |table.chains|), k0)
      requires k0 < |ChainOf(h)| ==> ChainOf(h)[k0] in table.hash && table.hash[ChainOf(h)[k0]] == h
      requires !exact ==> found in list.nodes && forall i :: k0 <= i < |ChainOf(h)| ==> NodeOf(ChainOf(h)[i]) != found
      ensures NextMatch(h, k0, node, j)
    {
      hide HashTable.Valid, CacheList.Valid, State.Valid, Contents.Valid, Home, Cache.Match, HashTable.LinkAt;
      hide Contents.Search;
      var link := link0;
      j := k0;
      ghost var c := ChainOf(h);
      table.DerefAt(Home(h, |table.chains|), j);
      while table.Deref(link) != NULL
        invariant k0 <= j <= |c| && c == ChainOf(h) && link == table.LinkAt(Home(h, |table.chains|), j)
        invariant if link.Bucket? then link.index < table.buckets.Length else link.entry in table.next
        invariant table.Deref(link) == Nth(c, j) && (table.Deref(link) == NULL <==> j == |c|)
        invariant j < |c| ==> c[j] in table.hash && table.hash[c[j]] == h
        invariant forall i :: k0 <= i < j ==> !Match(h, i)
        decreases |c| - j
      {
        node := NodeOf(table.Deref(link));
        EntryHasNode(c[j]);
        var unlisted := list.NodeUnlinked(node);
        var maybeUnlisted := list.prev[node] == NULL && list.next[node] == NULL;
        if !exact {
          list.OneOfTwo(found, node);
        }
        AtMatch(h, j);
        if (exact && !unlisted) || !maybeUnlisted {
          return;
        }
        table.SomeBucket();
        ghost var j' := table.View().Search(h, j + 1);
        SkipsOthers(h, j);
        link := table.LookupNext(table.Deref(link), j);
        j := j';
        table.DerefAt(Home(h, |table.chains|), j);
      }
      node := NULL;
    }

    /** sftfs_cache_peek */
    method Peek(h: nat) returns (node: Ptr, ghost j: nat)
      requires Valid()
      modifies this, table, table.buckets, list, list.clock
      ensures Valid() && table == old(table) && list.clock.Ran()
      ensures View() == old(View()).Evict(list.ttl, list.clock.now)
      ensures NextMatch(h, 0, node, j)
      ensures list.nodes != [] || old(list.nodes) != [] ==> list.clock.count > old(list.clock.count)
      ensures table.FrontsKept()
    {
      hide CacheList.Valid, State.Valid, Contents.Valid, Contents.HasInFront;
      EvictInvalid();
      ghost var k := table.View().Search(h, 0);
      BeforeSearch(h, 0);
      var link := table.Lookup(h);
      node, j := FindListed(h, link, k, true, NULL);
    }

    /** sftfs_cache_peek_next, from the listed entry at position `k` of the chain for its hash. */
    method PeekNext(node: Ptr, ghost k: nat) returns (node': Ptr, ghost j: nat)
      requires Valid() && node in data && data[node] in table.hash
      requires Match(table.hash[data[node]], k) && node == NodeOf(ChainOf(table.hash[data[node]])[k])
      ensures NextMatch(table.hash[data[node]], k + 1, node', j)
    {
      hide CacheList.Valid, State.Valid, Contents.Valid;
      ghost var h := table.hash[data[node]];
      EntryHasNode(ChainOf(h)[k]);
      OnlyHere(h, k);
      BeforeSearch(h, k + 1);
      ghost var k' := table.View().Search(h, k + 1);
      var link := table.LookupNext(data[node], k);
      node', j := FindListed(table.hash[data[node]], link, k', false, node);
    }

    lemma BeforeSearch(h: nat, k: nat)
      requires Valid() && k <= |ChainOf(h)|
      ensures forall i :: k <= i < table.View().Search(h, k) ==> !Match(h, i)
    {
      table.View().ChainsHold();
    }

    // No later position of the chain holds the same entry.
    lemma OnlyHere(h: nat, k: nat)
      requires table.Valid() && k < |ChainOf(h)|
      ensures forall i :: k < i < |ChainOf(h)| ==> NodeOf(ChainOf(h)[i]) != NodeOf(ChainOf(h)[k])
    {
      forall i | k < i < |ChainOf(h)| ensures ChainOf(h)[i] != ChainOf(h)[k] {
        if ChainOf(h)[i] == ChainOf(h)[k] {
          table.View().SamePosition(Home(h, |table.chains|), k, Home(h, |table.chains|), i);
        }
      }
    }

    /** Every listed node is a match somewhere in the chain for its hash. */
    lemma MatchOf(node: Ptr) returns (i: nat)
      requires Valid() && node in list.nodes
      ensures node in data && data[node] in table.hash
      ensures Match(table.hash[data[node]], i) && NodeOf(ChainOf(table.hash[data[node]])[i]) == node
    {
      var b;
      b, i := table.View().Find(data[node]);
    }

    /** The nodes of the matches before position `k`, in the order of the chain. */
    ghost function Matches(h: nat, k: nat): seq<Ptr>
      requires table.Valid() && k <= |ChainOf(h)|
      reads this, table, table.buckets, list
    {
      if k == 0 then []
      else Matches(h, k - 1) + if Match(h, k - 1) then [NodeOf(ChainOf(h)[k - 1])] else []
    }

    lemma {:induction false} MatchesPrefix(h: nat, k: nat, n: nat)
      requires table.Valid() && k <= n <= |ChainOf(h)|
      ensures Matches(h, k) <= Matches(h, n)
    {
      hide HashTable.Valid;
      if k < n {
        MatchesPrefix(h, k, n - 1);
      }
    }

    lemma {:induction false} NoMatchBetween(h: nat, k: nat, j: nat)
      requires table.Valid() && k <= j <= |ChainOf(h)| && forall i :: k <= i < j ==> !Match(h, i)
      ensures Matches(h, j) == Matches(h, k)
    {
      if k < j {
        NoMatchBetween(h, k, j - 1);
      }
    }

    /** The matches are exactly the listed nodes with this hash, and no node occurs twice. */
    lemma MatchesAreListed(h: nat)
      requires Valid()
      ensures Distinct(Matches(h, |ChainOf(h)|))
      ensures forall n :: n in Matches(h, |ChainOf(h)|) <==>
        n in list.nodes && n in data && data[n] in table.hash && table.hash[data[n]] == h
    {
      var all := Matches(h, |ChainOf(h)|);
      MatchesUpTo(h, |ChainOf(h)|);
      MatchesDistinct(h, |ChainOf(h)|);
      forall n ensures n in all <==> n in list.nodes && n in data && data[n] in table.hash && table.hash[data[n]] == h {
        if n in all {
          var i: nat :| i < |ChainOf(h)| && Match(h, i) && n == NodeOf(ChainOf(h)[i]);
          EntryHasNode(ChainOf(h)[i]);
        } else if n in list.nodes && n in data && data[n] in table.hash && table.hash[data[n]] == h {
          var i := MatchOf(n);
        }
      }
    }

    lemma {:induction false} MatchesUpTo(h: nat, k: nat)
      requires table.Valid() && k <= |ChainOf(h)|
      ensures forall n {:trigger n in Matches(h, k)} :: n in Matches(h, k) ==>
        exists i: nat :: i < k && Match(h, i) && n == NodeOf(ChainOf(h)[i])
      ensures forall i: nat :: i < k && Match(h, i) ==> NodeOf(ChainOf(h)[i]) in Matches(h, k)
    {
      hide HashTable.Valid;
      if k > 0 {
        MatchesUpTo(h, k - 1);
      }
    }

    lemma {:induction false} MatchesDistinct(h: nat, k: nat)
      requires table.Valid() && k <= |ChainOf(h)|
      ensures Distinct(Matches(h, k))
    {
      hide Distinct;
      if k == 0 {
        NoneTwice<Ptr>();
      } else {
        MatchesDistinct(h, k - 1);
        MatchesUpTo(h, k - 1);
        if Match(h, k - 1) {
          var n := NodeOf(ChainOf(h)[k - 1]);
          if n in Matches(h, k - 1) {
            var i: nat :| i < k - 1 && Match(h, i) && n == NodeOf(ChainOf(h)[i]);
            OnlyHere(h, i);
            assert false;
          }
          AppendMembers(Matches(h, k - 1), n);
        } else {
          assert Matches(h, k) == Matches(h, k - 1);
        }
      }
    }

    // Going on from one match to the next adds one node to those visited.
    lemma OneMoreMatch(h: nat, k: nat, node: Ptr, j: nat)
      requires Valid() && NextMatch(h, k, node, j) && k <= |ChainOf(h)|
      ensures node == NULL ==> Matches(h, |ChainOf(h)|) == Matches(h, k)
      ensures node != NULL ==> k <= j < |ChainOf(h)| && Match(h, j) && node == NodeOf(ChainOf(h)[j])
      ensures node != NULL ==> Matches(h, j + 1) == Matches(h, k) + [node]
      ensures node != NULL ==> node in data && data[node] in table.hash && table.hash[data[node]] == h
    {
      if j < |ChainOf(h)| {
        EntryHasNode(ChainOf(h)[j]);
        NoMatchBetween(h, k, j);
      } else {
        NoMatchBetween(h, k, |ChainOf(h)|);
      }
    }

    /** Peeking and then peeking on visits every listed entry with a hash, each once. */
    method PeekAll(h: nat) returns (found: seq<Ptr>)
      requires Valid()
      modifies this, table, table.buckets, list, list.clock
      ensures Valid() && table == old(table)
      ensures View() == old(View()).Evict(list.ttl, list.clock.now)
      ensures found == Matches(h, |ChainOf(h)|)
    {
      hide CacheList.Valid, State.Valid, Contents.Valid;
      var node;
      ghost var j: nat;
      node, j := Peek(h);
      found := PeekRest(h, node, j);
    }

    method PeekRest(h: nat, first: Ptr, ghost firstJ: nat) returns (found: seq<Ptr>)
      requires Valid() && NextMatch(h, 0, first, firstJ)
      ensures found == Matches(h, |ChainOf(h)|)
    {
      hide CacheList.Valid, State.Valid, Contents.Valid, Cache.Matches, Cache.NextMatch, Cache.Match, Cache.ChainOf;
      found := [];
      var node := first;
      ghost var j, k := firstJ, 0;
      NoneYet(h);
      OneMoreMatch(h, k, node, j);
      while node != NULL
        invariant NextMatch(h, k, node, j) && k <= |ChainOf(h)|
        invariant found == Matches(h, k)
        decreases |ChainOf(h)| - k
      {
        OneMoreMatch(h, k, node, j);
        found := found + [node];
        k := j + 1;
        node, j := PeekNext(node, j);
      }
      OneMoreMatch(h, k, node, j);
    }

    lemma NoneYet(h: nat)
      requires table.Valid()
      ensures Matches(h, 0) == []
    {
    }

    lemma VisitedNext(ns: seq<Ptr>, b: nat, k: nat, b': nat, k': nat)
      requires table.Valid() && table.IsAfter(b, k, b', k') && k < |table.chains[b]|
      requires Visited(table.chains, list.nodes, ns, b, k)
      ensures var n := NodeOf(table.chains[b][k]);
        Visited(table.chains, list.nodes, if n in list.nodes then ns + [n] else ns, b', k')
    {
      hide Contents.Valid;
      var n := NodeOf(table.chains[b][k]);
      forall i, j | 0 <= i < |table.chains| && 0 <= j < |table.chains[i]| && table.chains[i][j] == table.chains[b][k]
        ensures i == b && j == k
      {
        table.View().SamePosition(i, j, b, k);
      }
    }

    lemma VisitedAll(ns: seq<Ptr>, b: nat, k: nat)
      requires table.Valid() && table.IsLast(b, k) && Visited(table.chains, list.nodes, ns, b, k)
      requires NodesHoused(data, table.hash, list.nodes)
      ensures forall m :: m in list.nodes ==> m in ns || m == NodeOf(table.chains[b][k])
    {
      hide Contents.Valid;
      forall m | m in list.nodes && m !in ns ensures m == NodeOf(table.chains[b][k]) {
        var i, j := table.View().Find(data[m]);
        assert NodeOf(table.chains[i][j]) == m;
      }
    }

    lemma Housed()
      requires Valid()
      ensures NodesHoused(data, table.hash, list.nodes) && (table.hash == map[] ==> list.nodes == [])
    {
      if list.nodes != [] {
        assert list.nodes[0] in list.nodes;
      }
    }

    lemma FirstPosition(b: nat)
      requires table.IsFirst(b, 0)
      ensures b < |table.chains| && 0 < |table.chains[b]|
      ensures Visited(table.chains, list.nodes, [], b, 0)
    {
    }

    lemma StampedNode(node: Ptr)
      requires list.Valid() && node in list.modTime
      ensures node in list.next
    {
    }

    // One round of call_on_evict_of_all_entries, after the nodes in `order` were reported.
    method ReportListed(node: Ptr, ghost s: State<F>, ghost order: seq<Ptr>) returns (ghost order': seq<Ptr>)
      requires list.Valid() && node in list.next && s.Accounted()
      requires Distinct(order) && forall k :: 0 <= k < |order| ==> order[k] in s.serial
      requires node in list.nodes ==> node in s.serial && node !in order
      requires View() == s.ReportAll(order)
      modifies `serial, `log, `fate
      ensures order' == if node in list.nodes then order + [node] else order
      ensures Distinct(order') && forall k :: 0 <= k < |order'| ==> order'[k] in s.serial
      ensures View() == s.ReportAll(order')
    {
      hide CacheList.Valid, State.Accounted, State.ReportAll, Distinct;
      var unlisted := list.NodeUnlinked(node);
      order' := order;
      if !unlisted {
        s.ReportOneMore(order, node);
        AppendMembers(order, node);
        CallOnEvict(node);
        order' := order + [node];
      }
    }

    // call_on_evict_of_all_entries
    method CallOnEvictOfAllEntries() returns (ghost order: seq<Ptr>)
      requires Valid()
      modifies `serial, `log, `fate
      ensures Distinct(order) && forall n :: n in order <==> n in list.nodes
      ensures forall k :: 0 <= k < |order| ==> order[k] in old(serial)
      ensures View() == old(View()).ReportAll(order)
    {
      hide Contents.Valid, State.Linked, State.Listed, HashTable.IsFirst, HashTable.IsLast, HashTable.IsAfter;
      hide HashTable.Valid, CacheList.Valid, Visited, NodesHoused, State.Accounted, State.ReportAll;
      ghost var b: nat, k: nat, s := 0, 0, View();
      Housed();
      var link: Option<Link>;
      link, b := table.FirstEntry();
      order := [];
      if link.Some? {
        FirstPosition(b);
      }
      s.ReportNone();
      while link.Some?
        invariant table.Valid() && list.Valid() && NodesHoused(data, table.hash, list.nodes)
        invariant s == old(View()) && s.Valid() && s.hash == table.hash && s.nodes == list.nodes
        invariant link.Some? ==> b < |table.chains| && k < |table.chains[b]| && link.value == table.LinkAt(b, k)
        invariant link.Some? ==> Visited(table.chains, list.nodes, order, b, k)
        invariant link.None? ==> forall n :: n in list.nodes ==> n in order
        invariant forall i :: 0 <= i < |order| ==> order[i] in s.serial
        invariant Distinct(order) && forall n :: n in order ==> n in list.nodes
        invariant View() == s.ReportAll(order)
        decreases link.Some?, |table.chains| - b, if link.Some? then |table.chains[b]| - k else 0
      {
        table.DerefAt(b, k);
        var entry := table.Deref(link.value);
        var node := NodeOf(entry);
        s.EntryKnown(entry);
        NotYet(table.chains, list.nodes, order, b, k);
        StampedNode(node);
        ghost var b0, k0, order0 := b, k, order;
        order := ReportListed(node, s, order);
        link, b, k := table.NextEntry(entry, b, k);
        if link.Some? {
          table.AfterIsPosition(b0, k0, b, k);
          VisitedNext(order0, b0, k0, b, k);
        } else {
          VisitedAll(order0, b0, k0);
        }
      }
    }

    /** sftfs_cache_clear */
    method Clear() returns (ghost order: seq<Ptr>)
      requires Valid()
      modifies this, table, table.buckets, list
      ensures Valid() && table == old(table)
      ensures Distinct(order) && forall n :: n in order <==> n in old(list.nodes)
      ensures forall k :: 0 <= k < |order| ==> order[k] in old(serial)
      ensures View() == old(View()).ReportAll(order).FreeAll()
    {
      hide HashTable.Valid, CacheList.Valid, State.Valid;
      ghost var s := View();
      order := CallOnEvictOfAllEntries();
      s.ClearedValid(order);
      list.Clear();
      table.Clear();
      data, body, serial := map[], map[], map[];
      fate := View().FreeAll().fate;
    }
  }
}
