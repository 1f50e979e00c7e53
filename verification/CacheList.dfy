/** The time source of src/cache/list.c: each reading is at or after the one before it. */
module Clocks {

  /** sftfs_cache_time_t is a 64-bit count of milliseconds. */
  const TIME_LIMIT: nat := 0x1_0000_0000_0000_0000

  /** The readings come in order and none is later than `horizon`. */
  ghost predicate NeverBack(reading: nat -> nat, horizon: nat) {
    forall i: nat, j: nat :: i <= j ==> reading(i) <= reading(j) <= horizon
  }

  /** A clock whose readings are anyone's guess, but fixed. */
  class Clock {
    const reading: nat -> nat
    // No reading is later than this.
    const horizon: nat
    // How often it was read, and the last reading; 0 before the first.
    var count: nat
    var now: nat

    ghost predicate Valid()
      reads this
    {
      NeverBack(reading, horizon) && now == LastBefore(count) && now <= horizon
    }

    /** The last of the first `k` readings. */
    function LastBefore(k: nat): nat {
      if k == 0 then 0 else reading(k - 1)
    }

    /** It was read any number of times. */
    twostate predicate Ran()
      reads this
    {
      old(count) <= count && old(now) <= now
    }

    constructor (reading: nat -> nat, horizon: nat)
      requires NeverBack(reading, horizon)
      ensures Valid() && now == 0 && count == 0 && this.reading == reading && this.horizon == horizon
    {
      this.reading, this.horizon := reading, horizon;
      now, count := 0, 0;
    }

    method Read() returns (t: nat)
      requires Valid()
      modifies this
      ensures Valid() && Ran() && count == old(count) + 1 && t == now == reading(old(count))
    {
      t := reading(count);
      now, count := t, count + 1;
    }
  }

  /** struct sftfs_cache_list_config: how long entries live, and the time source. */
  datatype Config = Config(ttl: nat, reading: nat -> nat) {
    /** No stamp plus time to live is ever too large. */
    ghost predicate Fits(horizon: nat) {
      NeverBack(reading, horizon) && horizon + ttl < TIME_LIMIT
    }
  }

  /** An entry stamped at `stamp` is too old at time `t`. */
  predicate Expired(stamp: nat, ttl: nat, t: nat) {
    stamp + ttl < t
  }

  /** lru_invalid as the machine computes it: the sum wraps. */
  predicate ExpiredWrapped(stamp: nat, ttl: nat, t: nat) {
    (stamp + ttl) % TIME_LIMIT < t
  }

  lemma NoWrap(stamp: nat, ttl: nat, t: nat)
    requires stamp + ttl < TIME_LIMIT
    ensures ExpiredWrapped(stamp, ttl, t) <==> Expired(stamp, ttl, t)
  {
  }

  /** The wrapped test is the intended one at every later reading exactly when the sum fits. */
  lemma WrapsOnlyPastTheLimit(stamp: nat, ttl: nat)
    requires stamp < TIME_LIMIT && ttl < TIME_LIMIT
    ensures (forall t: nat {:trigger Expired(stamp, ttl, t)} :: stamp <= t < TIME_LIMIT ==>
      (ExpiredWrapped(stamp, ttl, t) <==> Expired(stamp, ttl, t))) <==> stamp + ttl < TIME_LIMIT
  {
    if stamp + ttl >= TIME_LIMIT {
      var t := TIME_LIMIT - 1;
      assert ExpiredWrapped(stamp, ttl, t) && !Expired(stamp, ttl, t);
    }
  }
}

/** The doubly linked list of src/cache/list.c and include/cache/list.h, ordered by time stamp from
    the least to the most recently stored node. */
module CacheLists {
  import opened Memory
  import opened Clocks

  /** The element before position `k`, or NULL before the first. */
  function Prior(s: seq<Ptr>, k: nat): Ptr
    requires k <= |s|
  {
    if k == 0 then NULL else s[k - 1]
  }

  /** `prev` leads from each element of `s` to the one before it, and from the first to NULL. */
  ghost predicate Precedes(s: seq<Ptr>, prev: map<Ptr, Ptr>) {
    forall k :: 0 <= k < |s| ==> s[k] in prev && prev[s[k]] == Prior(s, k)
  }

  ghost predicate Sorted(s: seq<Ptr>, stamp: map<Ptr, nat>) {
    && (forall k :: 0 <= k < |s| ==> s[k] in stamp)
    && (forall i, j :: 0 <= i < j < |s| ==> stamp[s[i]] <= stamp[s[j]])
  }

  /** The nodes that have not expired at time `t`, in order. */
  function Live(s: seq<Ptr>, stamp: map<Ptr, nat>, ttl: nat, t: nat): (r: seq<Ptr>)
    requires forall k :: 0 <= k < |s| ==> s[k] in stamp
  {
    if s == [] then []
    else (if Expired(stamp[s[0]], ttl, t) then [] else [s[0]]) + Live(s[1..], stamp, ttl, t)
  }

  lemma LiveIgnores(s: seq<Ptr>, stamp: map<Ptr, nat>, stamp': map<Ptr, nat>, ttl: nat, t: nat)
    requires forall k :: 0 <= k < |s| ==> s[k] in stamp && s[k] in stamp' && stamp[s[k]] == stamp'[s[k]]
    ensures Live(s, stamp, ttl, t) == Live(s, stamp', ttl, t)
  {
  }

  lemma LiveMembers(s: seq<Ptr>, stamp: map<Ptr, nat>, ttl: nat, t: nat)
    requires forall k :: 0 <= k < |s| ==> s[k] in stamp
    ensures forall n :: n in Live(s, stamp, ttl, t) <==> n in s && n in stamp && !Expired(stamp[n], ttl, t)
  {
  }

  /** Evicting from the old end until a node is still live is filtering the whole list. */
  lemma {:induction false} EvictingIsFiltering(s: seq<Ptr>, stamp: map<Ptr, nat>, ttl: nat, t: nat, d: nat)
    requires Sorted(s, stamp) && d <= |s|
    requires forall k :: 0 <= k < d ==> Expired(stamp[s[k]], ttl, t)
    requires d < |s| ==> !Expired(stamp[s[d]], ttl, t)
    ensures Live(s, stamp, ttl, t) == s[d..]
  {
    if s != [] {
      if d > 0 {
        EvictingIsFiltering(s[1..], stamp, ttl, t, d - 1);
      } else {
        if |s| > 1 {
          assert stamp[s[0]] <= stamp[s[1]];
        }
        EvictingIsFiltering(s[1..], stamp, ttl, t, 0);
      }
    }
  }

  /** A list's nodes in order, and the fields of every allocated node, listed or not. */
  datatype Listing = Listing(nodes: seq<Ptr>, prev: map<Ptr, Ptr>, next: map<Ptr, Ptr>, stamp: map<Ptr, nat>) {

    ghost predicate Valid() {
      && prev.Keys == next.Keys == stamp.Keys
      && NULL !in next
      && Distinct(nodes) && Follows(nodes, next) && Precedes(nodes, prev)
      && Sorted(nodes, stamp)
      && Apart()
    }

    /** Every other node is as sftfs_cache_list_reset_node leaves it. */
    ghost predicate Apart() {
      forall n :: n in next && n !in nodes ==>
        n in prev && n in stamp && prev[n] == NULL && next[n] == NULL && stamp[n] == 0
    }

    /** Every listed stamp was a reading of the clock. */
    ghost predicate Past(now: nat) {
      forall k :: 0 <= k < |nodes| ==> nodes[k] in stamp && stamp[nodes[k]] <= now
    }

    ghost function Last(): Ptr {
      Prior(nodes, |nodes|)
    }

    ghost function Append(n: Ptr, t: nat): Listing {
      var linked := if nodes == [] then next else next[Last() := n];
      Listing(nodes + [n], prev[n := Last()], linked[n := NULL], stamp[n := t])
    }

    /** Without the node at position `k`, whose fields are reset. */
    ghost function Drop(k: nat): Listing
      requires k < |nodes|
    {
      var n := nodes[k];
      var prev' := if k + 1 < |nodes| then prev[nodes[k + 1] := Prior(nodes, k)] else prev;
      var next' := if k > 0 then next[nodes[k - 1] := Nth(nodes, k + 1)] else next;
      Listing(Without(nodes, k), prev'[n := NULL], next'[n := NULL], stamp[n := 0])
    }

    // What the fields become: there is a last node to link to, or there is none.
    lemma AppendFields(n: Ptr, t: nat)
      ensures nodes == [] ==> Append(n, t).prev == prev[n := NULL] && Append(n, t).next == next[n := NULL]
      ensures nodes != [] ==>
        Append(n, t).prev == prev[n := Last()] && Append(n, t).next == next[Last() := n][n := NULL]
    {
    }

    // The stamp is all that depends on the clock.
    lemma AppendStamp(n: Ptr, t: nat)
      ensures var linked := Append(n, 0);
        Append(n, t) == Listing(nodes + [n], linked.prev, linked.next, stamp[n := t])
    {
    }

    lemma AppendPast(n: Ptr, t: nat)
      requires Past(t) && n !in nodes
      ensures Append(n, t).Past(t) && Append(n, t).Last() == n
      ensures Nth(Append(n, t).nodes, 0) == if nodes == [] then n else Nth(nodes, 0)
    {
      assert forall k :: 0 <= k < |nodes| ==> nodes[k] in nodes;
    }

    // Resetting a node that is reset changes nothing.
    lemma ResetTwice(n: Ptr)
      requires n in prev && n in next && n in stamp && prev[n] == NULL && next[n] == NULL && stamp[n] == 0
      ensures prev[n := NULL] == prev && next[n := NULL] == next && stamp[n := 0] == stamp
    {
    }

    lemma NodesAllocated()
      requires Valid()
      ensures forall k :: 0 <= k < |nodes| ==> nodes[k] in next && nodes[k] in prev && nodes[k] in stamp
      ensures forall n :: n in nodes ==> n in next && n in prev && n in stamp
    {
    }

    lemma AppendValid(n: Ptr, t: nat)
      requires Valid() && n in next && n !in nodes
      requires Past(t)
      ensures Append(n, t).Valid()
    {
      hide Distinct, Follows, Precedes, Sorted;
      AppendMembers(nodes, n);
      AppendLinks(nodes, prev, next, n);
      AppendSorted(nodes, stamp, n, t);
    }

    /** A node of a newly allocated block, reset. */
    ghost function Allocate(n: Ptr): Listing {
      Listing(nodes, prev[n := NULL], next[n := NULL], stamp[n := 0])
    }

    /** The block of an unlisted node is freed. */
    ghost function Release(n: Ptr): Listing {
      Listing(nodes, prev - {n}, next - {n}, stamp - {n})
    }

    lemma AllocateValid(n: Ptr)
      requires Valid() && n !in next && n != NULL
      ensures Allocate(n).Valid()
    {
      hide Follows, Precedes, Sorted, Distinct, Listing.Apart;
      NodesAllocated();
      AllocateApart(n);
      assert forall k :: 0 <= k < |nodes| ==> nodes[k] in nodes && nodes[k] != n;
      OthersUntouched(Allocate(n));
    }

    lemma AllocateApart(n: Ptr)
      requires Apart() && prev.Keys == next.Keys == stamp.Keys
      ensures Allocate(n).Apart()
    {
    }

    lemma ReleaseValid(n: Ptr)
      requires Valid() && n !in nodes
      ensures Release(n).Valid()
    {
      hide Follows, Precedes, Sorted, Distinct, Listing.Apart;
      NodesAllocated();
      ReleaseApart(n);
      assert forall k :: 0 <= k < |nodes| ==> nodes[k] in nodes && nodes[k] != n;
      OthersUntouched(Release(n));
    }

    lemma ReleaseApart(n: Ptr)
      requires Apart() && prev.Keys == next.Keys == stamp.Keys
      ensures Release(n).Apart()
    {
    }

    // The links and the order of a list depend on the fields of its own nodes only.
    lemma OthersUntouched(after: Listing)
      requires Valid() && after.nodes == nodes
      requires forall k :: 0 <= k < |nodes| ==>
        nodes[k] in after.next && nodes[k] in after.prev && nodes[k] in after.stamp
      requires forall k :: 0 <= k < |nodes| ==>
        nodes[k] in next && nodes[k] in prev && nodes[k] in stamp &&
        after.next[nodes[k]] == next[nodes[k]] && after.prev[nodes[k]] == prev[nodes[k]]
        && after.stamp[nodes[k]] == stamp[nodes[k]]
      ensures Follows(nodes, after.next) && Precedes(nodes, after.prev) && Sorted(nodes, after.stamp)
    {
    }

    lemma DropKeys(k: nat)
      requires Valid() && k < |nodes|
      ensures var after := Drop(k);
        after.prev.Keys == prev.Keys && after.next.Keys == next.Keys && after.stamp.Keys == stamp.Keys
    {
      hide Distinct, Follows, Precedes, Sorted, Listing.Apart;
      NodesAllocated();
      assert nodes[k] in nodes && (k > 0 ==> nodes[k - 1] in nodes) && (k + 1 < |nodes| ==> nodes[k + 1] in nodes);
    }

    lemma DropApart(k: nat)
      requires Valid() && k < |nodes|
      ensures Drop(k).Apart()
    {
      hide Distinct, Follows, Precedes, Sorted;
      WithoutMembers(nodes, k);
      assert (k > 0 ==> nodes[k - 1] in nodes) && (k + 1 < |nodes| ==> nodes[k + 1] in nodes);
    }

    lemma DropPast(k: nat, now: nat)
      requires Valid() && k < |nodes| && Past(now)
      ensures Drop(k).Past(now)
      ensures Nth(Drop(k).nodes, 0) == if k == 0 then Nth(nodes, 1) else Nth(nodes, 0)
      ensures Drop(k).Last() == if k + 1 == |nodes| then Prior(nodes, k) else Last()
    {
      hide Follows, Precedes, Sorted, Listing.Apart;
      var d := Without(nodes, k);
      assert forall j :: 0 <= j < |d| ==> d[j] == nodes[if j < k then j else j + 1];
    }

    lemma DropValid(k: nat)
      requires Valid() && k < |nodes|
      ensures Drop(k).Valid()
    {
      hide Distinct, Follows, Precedes, Sorted, Listing.Apart;
      WithoutMembers(nodes, k);
      DropKeys(k);
      DropApart(k);
      DropFollows(nodes, next, k);
      DropPrecedes(nodes, prev, k);
      DropSorted(nodes, stamp, k);
    }
  }

  lemma EmptyListing(now: nat)
    ensures var l := Listing([], map[], map[], map[]);
      l.Valid() && l.Past(now) && Nth(l.nodes, 0) == NULL && l.Last() == NULL
  {
  }

  lemma AppendMembers(s: seq<Ptr>, n: Ptr)
    requires Distinct(s) && n !in s
    ensures Distinct(s + [n]) && forall m :: m in s + [n] <==> m in s || m == n
  {
    assert (s + [n])[|s|] == n;
    assert forall m :: m in s ==> m in s + [n];
  }

  lemma AppendLinks(s: seq<Ptr>, prev: map<Ptr, Ptr>, next: map<Ptr, Ptr>, n: Ptr)
    requires Distinct(s) && n !in s && Follows(s, next) && Precedes(s, prev)
    ensures var last := Prior(s, |s|);
      && Precedes(s + [n], prev[n := last])
      && Follows(s + [n], (if s == [] then next else next[last := n])[n := NULL])
      && (s != [] ==> last in s)
  {
    hide Distinct;
    var t := s + [n];
    if s != [] {
      OthersDiffer(s, |s| - 1);
    }
    forall k | 0 <= k < |s|
      ensures t[k] == s[k] != n && Prior(t, k) == Prior(s, k)
      ensures k + 1 < |s| ==> Nth(t, k + 1) == Nth(s, k + 1)
    {
      assert s[k] in s;
    }
  }

  lemma AppendSorted(s: seq<Ptr>, stamp: map<Ptr, nat>, n: Ptr, t: nat)
    requires Sorted(s, stamp) && n !in s && forall k :: 0 <= k < |s| ==> stamp[s[k]] <= t
    ensures Sorted(s + [n], stamp[n := t])
  {
    assert forall k :: 0 <= k < |s| ==> s[k] in s;
  }

  lemma DropFollows(s: seq<Ptr>, next: map<Ptr, Ptr>, k: nat)
    requires Distinct(s) && k < |s| && Follows(s, next)
    ensures Follows(Without(s, k), (if k > 0 then next[s[k - 1] := Nth(s, k + 1)] else next)[s[k] := NULL])
  {
    var d := Without(s, k);
    var next' := if k > 0 then next[s[k - 1] := Nth(s, k + 1)] else next;
    forall j | 0 <= j < |d| ensures d[j] in next' && d[j] != s[k] && next'[d[j]] == Nth(d, j + 1) {
      if j < k {
        assert d[j] == s[j] && (j + 1 < k ==> s[j] != s[k - 1] && Nth(d, j + 1) == s[j + 1]);
      } else {
        assert d[j] == s[j + 1] && Nth(d, j + 1) == Nth(s, j + 2) && (k > 0 ==> s[j + 1] != s[k - 1]);
      }
    }
  }

  lemma DropPrecedes(s: seq<Ptr>, prev: map<Ptr, Ptr>, k: nat)
    requires Distinct(s) && k < |s| && Precedes(s, prev)
    ensures Precedes(Without(s, k),
              (if k + 1 < |s| then prev[s[k + 1] := Prior(s, k)] else prev)[s[k] := NULL])
  {
    var d := Without(s, k);
    var prev' := if k + 1 < |s| then prev[s[k + 1] := Prior(s, k)] else prev;
    forall j | 0 <= j < |d| ensures d[j] in prev' && d[j] != s[k] && prev'[d[j]] == Prior(d, j) {
      if j < k {
        assert d[j] == s[j] && Prior(d, j) == Prior(s, j);
      } else if j == k {
        assert d[j] == s[k + 1] && Prior(d, j) == Prior(s, k);
      } else {
        assert d[j] == s[j + 1] != s[k + 1] && Prior(d, j) == Prior(s, j + 1);
      }
    }
  }

  lemma DropSorted(s: seq<Ptr>, stamp: map<Ptr, nat>, k: nat)
    requires Distinct(s) && k < |s| && Sorted(s, stamp)
    ensures Sorted(Without(s, k), stamp[s[k] := 0])
  {
    var d := Without(s, k);
    assert forall j :: 0 <= j < |d| ==> d[j] == s[if j < k then j else j + 1];
  }

  class CacheList {
    var lru: Ptr
    var mru: Ptr
    var prev: map<Ptr, Ptr>
    var next: map<Ptr, Ptr>
    var modTime: map<Ptr, nat>
    const clock: Clock
    const ttl: nat
    ghost var nodes: seq<Ptr>

    ghost function View(): Listing
      reads this
    {
      Listing(nodes, prev, next, modTime)
    }

    ghost predicate Valid()
      reads this, clock
    {
      && View().Valid()
      && lru == Nth(nodes, 0) && mru == View().Last()
      && clock.Valid() && clock.horizon + ttl < TIME_LIMIT
      && View().Past(clock.now)
    }

    constructor (clock: Clock, ttl: nat)
      requires clock.Valid() && clock.horizon + ttl < TIME_LIMIT
      ensures Valid() && nodes == [] && modTime == map[] && this.clock == clock && this.ttl == ttl
    {
      lru, mru := NULL, NULL;
      prev, next, modTime := map[], map[], map[];
      this.clock, this.ttl := clock, ttl;
      nodes := [];
    }

    lemma EndsNull()
      requires Valid()
      ensures mru == NULL <==> nodes == []
      ensures lru == NULL <==> nodes == []
    {
    }

    lemma StampsPast()
      requires Valid()
      ensures forall k :: 0 <= k < |nodes| ==> nodes[k] in modTime && modTime[nodes[k]] <= clock.now
    {
    }

    /** sftfs_cache_list_insert */
    method Insert(node: Ptr)
      requires Valid() && node in next && node !in nodes
      modifies this, clock
      ensures Valid() && clock.Ran()
      ensures clock.count > old(clock.count) && View() == old(View()).Append(node, clock.now)
      ensures nodes == old(nodes) + [node] && modTime == old(modTime)[node := clock.now]
    {
      hide Listing.Valid, Listing.Append, Listing.Last, Nth;
      ghost var before := View();
      LinkLast(node);
      var t := clock.Read();
      before.AppendStamp(node, t);
      before.AppendValid(node, t);
      before.AppendPast(node, t);
      modTime := modTime[node := t];
      nodes := nodes + [node];
    }

    // The links of the node, and those to it.
    method LinkLast(node: Ptr)
      requires Valid() && node in next && node !in nodes
      modifies `lru, `mru, `prev, `next
      ensures var linked := old(View()).Append(node, 0); prev == linked.prev && next == linked.next
      ensures mru == node && lru == if nodes == [] then node else Nth(nodes, 0)
    {
      hide Distinct, Follows, Precedes, Sorted, Listing.Apart, Listing.Append, Nth, Prior;
      EndsNull();
      View().AppendFields(node, 0);
      if mru != NULL {
        next := next[mru := node];
        prev := prev[node := mru];
      } else {
        lru, mru := node, node;
        prev := prev[node := NULL];
      }
      next := next[node := NULL];
      mru := node;
    }

    /** sftfs_cache_list_remove: a node that is not listed stays as it is, and so does the list. */
    method Remove(node: Ptr)
      requires Valid() && node in next
      modifies this
      ensures Valid()
      ensures View() == if node in old(nodes) then old(View()).Drop(IndexOf(old(nodes), node)) else old(View())
      ensures node !in old(nodes) ==> nodes == old(nodes)
      ensures node in old(nodes) ==>
        var k := IndexOf(old(nodes), node); nodes == old(nodes)[..k] + old(nodes)[k + 1..]
      ensures node in prev && node in modTime && prev[node] == NULL && next[node] == NULL && modTime[node] == 0
    {
      hide Distinct, Follows, Precedes, Sorted, Listing.Apart, Listing.Past, Without, Nth, Prior;
      EndsNull();
      ghost var before := View();
      if node in nodes {
        ghost var k := IndexOf(nodes, node);
        Neighbours(k);
        View().DropValid(k);
        View().DropPast(k, clock.now);
      } else {
        Unlinked(node);
      }
      var p, n := prev[node], next[node];
      if p != NULL {
        next := next[p := n];
      }
      if n != NULL {
        prev := prev[n := p];
      }
      if lru == node && mru == node {
        lru, mru := NULL, NULL;
      } else {
        if lru == node {
          lru := n;
        }
        if mru == node {
          mru := p;
        }
      }
      ResetNode(node);
      if node in nodes {
        WithoutParts(nodes, IndexOf(nodes, node));
        nodes := Without(nodes, IndexOf(nodes, node));
      } else {
        before.ResetTwice(node);
      }
    }

    // The fields of a node that is not listed, which is at neither end.
    lemma Unlinked(node: Ptr)
      requires Valid() && node in next && node !in nodes
      ensures node in prev && node in modTime && prev[node] == NULL && next[node] == NULL && modTime[node] == 0
      ensures node != lru && node != mru
    {
      if nodes != [] {
        assert nodes[0] in nodes && nodes[|nodes| - 1] in nodes;
      }
    }

    // The fields of the node at position `k`, and which of the ends it is.
    lemma Neighbours(k: nat)
      requires Valid() && k < |nodes|
      ensures nodes[k] in next && nodes[k] in prev && nodes[k] in modTime
      ensures prev[nodes[k]] == Prior(nodes, k) && next[nodes[k]] == Nth(nodes, k + 1)
      ensures if k == 0 then Prior(nodes, k) == NULL else Prior(nodes, k) == nodes[k - 1] != NULL
      ensures if k + 1 == |nodes| then Nth(nodes, k + 1) == NULL else Nth(nodes, k + 1) == nodes[k + 1] != NULL
      ensures lru == nodes[k] <==> k == 0
      ensures mru == nodes[k] <==> k + 1 == |nodes|
    {
    }

    /** sftfs_cache_list_refresh: the node becomes the most recent one, stamped now. */
    method Refresh(node: Ptr)
      requires Valid() && node in next
      modifies this, clock
      ensures Valid() && clock.Ran()
      ensures modTime == old(modTime)[node := clock.now]
      ensures node !in old(nodes) ==> nodes == old(nodes) + [node]
      ensures node in old(nodes) ==>
        var k := IndexOf(old(nodes), node); nodes == old(nodes)[..k] + old(nodes)[k + 1..] + [node]
    {
      hide Follows, Precedes, Sorted, Listing.Apart, Listing.Past, Without;
      if node in nodes {
        ghost var k := IndexOf(nodes, node);
        WithoutMembers(nodes, k);
        View().DropKeys(k);
        View().NodesAllocated();
      }
      Remove(node);
      Insert(node);
    }

    /** sftfs_cache_list_reset_node */
    method ResetNode(node: Ptr)
      modifies `prev, `next, `modTime
      ensures prev == old(prev)[node := NULL] && next == old(next)[node := NULL] && modTime == old(modTime)[node := 0]
    {
      prev, next := prev[node := NULL], next[node := NULL];
      modTime := modTime[node := 0];
    }

    // A new block holds this node: sftfs_cache_list_reset_node gives it its first values.
    method AllocateNode(node: Ptr)
      requires Valid() && node !in next && node != NULL
      modifies this
      ensures Valid() && View() == old(View()).Allocate(node)
      ensures nodes == old(nodes) && modTime == old(modTime)[node := 0]
    {
      hide Distinct, Follows, Precedes, Sorted, Listing.Apart;
      View().NodesAllocated();
      View().AllocateValid(node);
      ResetNode(node);
    }

    // The block that holds this unlisted node is freed.
    method FreeNode(node: Ptr)
      requires Valid() && node !in nodes
      modifies this
      ensures Valid() && View() == old(View()).Release(node)
      ensures nodes == old(nodes) && modTime == old(modTime) - {node}
    {
      hide Distinct, Follows, Precedes, Sorted, Listing.Apart;
      View().ReleaseValid(node);
      prev, next, modTime := prev - {node}, next - {node}, modTime - {node};
    }

    /** sftfs_cache_list_empty */
    method Empty() returns (r: bool)
      requires Valid()
      ensures r <==> nodes == []
    {
      EndsNull();
      r := lru == NULL;
    }

    /** sftfs_cache_list_node_unlinked: the fields of a node tell exactly whether it is listed. */
    method NodeUnlinked(node: Ptr) returns (r: bool)
      requires Valid() && node in next
      ensures r <==> node !in nodes
      ensures r ==> node in prev && prev[node] == NULL && next[node] == NULL
    {
      hide Distinct, Sorted;
      if node in nodes {
        ghost var k := IndexOf(nodes, node);
        Neighbours(k);
      }
      r := prev[node] == NULL && next[node] == NULL && node != lru;
    }

    /** Next to another listed node, a node's links alone tell whether it is listed. */
    lemma OneOfTwo(other: Ptr, node: Ptr)
      requires Valid() && other in nodes && node in next && node != other
      ensures node in prev
      ensures prev[node] == NULL && next[node] == NULL <==> node !in nodes
    {
      hide Distinct, Sorted;
      if node in nodes {
        var k, i := IndexOf(nodes, node), IndexOf(nodes, other);
        Neighbours(k);
      }
    }

    // evict_lru
    method EvictLru() returns (evicted: Ptr)
      requires Valid() && nodes != []
      modifies this
      ensures Valid() && View() == old(View()).Drop(0)
      ensures evicted == old(nodes)[0]
    {
      hide Distinct, Follows, Precedes, Sorted, Listing.Apart, Listing.Past, Without, Nth, Prior;
      Neighbours(0);
      EndsNull();
      View().DropValid(0);
      View().DropPast(0, clock.now);
      evicted := lru;
      lru := next[evicted];
      if lru == NULL {
        mru := NULL;
      } else {
        prev := prev[lru := NULL];
      }
      ResetNode(evicted);
      nodes := Without(nodes, 0);
    }

    // lru_invalid
    method LruInvalid() returns (r: bool)
      requires Valid() && nodes != []
      modifies clock
      ensures Valid() && clock.Ran() && clock.count > old(clock.count)
      ensures r <==> modTime[nodes[0]] + ttl < clock.now
    {
      hide Distinct, Follows, Precedes, Sorted, Listing.Apart, ExpiredWrapped;
      Neighbours(0);
      var t := clock.Read();
      NoWrap(modTime[lru], ttl, t);
      r := ExpiredWrapped(modTime[lru], ttl, t);
    }

    /** sftfs_cache_list_evict_invalid_lru: NULL if there is no node or the oldest is still live. */
    method EvictInvalidLru() returns (evicted: Ptr)
      requires Valid()
      modifies this, clock
      ensures Valid() && clock.Ran()
      ensures evicted == NULL ==> View() == old(View())
      ensures evicted != NULL ==> old(nodes) != [] && evicted == old(nodes)[0]
      ensures evicted != NULL ==> nodes == old(nodes)[1..] && modTime == old(modTime)[evicted := 0]
      ensures old(nodes) != [] ==> clock.count > old(clock.count)
      ensures old(nodes) != [] ==> (evicted != NULL <==> old(modTime[nodes[0]]) + ttl < clock.now)
    {
      EndsNull();
      if lru == NULL {
        return NULL;
      }
      Neighbours(0);
      var invalid := LruInvalid();
      if invalid {
        evicted := EvictLru();
      } else {
        evicted := NULL;
      }
    }

    // `list.lru = list.mru = NULL`, all blocks being freed.
    method Clear()
      requires Valid()
      modifies this
      ensures Valid() && nodes == [] && modTime == map[]
    {
      hide Listing.Valid, Listing.Past, Listing.Last, Nth, NeverBack;
      EmptyListing(clock.now);
      lru, mru := NULL, NULL;
      prev, next, modTime := map[], map[], map[];
      nodes := [];
    }
  }
}
