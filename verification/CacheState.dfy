/** What a cache (src/cache/cache.c) holds, as a value, and what each of its operations does to it. */
module CacheStates {
  import opened Memory
  import opened Clocks
  import opened CacheLists

  /** The payload of a table entry, a cache entry starting with its list node, follows its header. */
  const HEADER: nat := 16

  function NodeOf(entry: Ptr): Ptr {
    entry + HEADER
  }

  /** What became of an entry: still held, reported to the eviction callback, or freed unreported. */
  datatype Fate = Held(node: Ptr) | Reported | Dropped

  /** - hash: the hash of every table entry
      - data: the `data` field of every node, which points back at the table entry it is in
      - body: what the user of the cache stored behind a node
      - nodes: the listed nodes, the oldest first; every other node is taken
      - stamp: the `mod_time` field of every node
      The rest is bookkeeping that the program does not have. Each allocated entry gets the next
      serial number; `fate` says what became of it, `log` lists the serial numbers of the entries
      the eviction callback was called on, and `serial` has the nodes no outcome was recorded for. */
  datatype State<F> = State(hash: map<Ptr, nat>, data: map<Ptr, Ptr>, body: map<Ptr, F>,
                            nodes: seq<Ptr>, stamp: map<Ptr, nat>,
                            serial: map<Ptr, nat>, log: seq<nat>, fate: seq<Fate>) {

    ghost predicate Valid() {
      && Linked()
      && Listed()
      && Accounted()
    }

    /** Nodes and table entries correspond one to one through `data`. */
    ghost predicate Linked() {
      && stamp.Keys == data.Keys && serial.Keys <= data.Keys && body.Keys <= data.Keys
      && (forall n {:trigger n in data} :: n in data ==> NodeOf(data[n]) == n && data[n] in hash)
      && (forall e {:trigger e in hash} :: e in hash ==> NodeOf(e) in data && data[NodeOf(e)] == e)
      && NULL !in data && NULL !in hash
    }

    /** The listed nodes are nodes without an outcome yet, none twice, in the order of their stamps. */
    ghost predicate Listed() {
      && Distinct(nodes) && Sorted(nodes, stamp)
      && (forall n {:trigger n in nodes} :: n in nodes ==> n in data && n in serial)
    }

    /** Every entry ever allocated is still held, or was reported exactly once, or was dropped
        without a report. */
    ghost predicate Accounted() {
      && (forall n {:trigger n in serial} :: n in serial ==> serial[n] < |fate| && fate[serial[n]] == Held(n))
      && (forall s {:trigger s in log} :: s in log ==> s < |fate| && fate[s] == Reported)
      && (forall s :: 0 <= s < |fate| ==>
            match fate[s]
            case Held(n) => n in serial && serial[n] == s
            case Reported => s in log
            case Dropped => true)
      && Distinct(log)
    }

    /** No node's outcome is already recorded; so it is between any two calls of the cache. */
    ghost predicate Settled() {
      serial.Keys == data.Keys
    }

    /** The callback is called on node `n`. */
    ghost function Report(n: Ptr): State<F>
      requires n in serial && serial[n] < |fate|
    {
      this.(log := log + [serial[n]], fate := fate[serial[n] := Reported], serial := serial - {n})
    }

    ghost predicate Freeable(n: Ptr) {
      n in data && (n in serial ==> serial[n] < |fate|)
    }

    /** The block of node `n` is freed. */
    ghost function Free(n: Ptr): State<F>
      requires Freeable(n)
    {
      State(hash - {data[n]}, data - {n}, body - {n}, nodes, stamp - {n},
            serial - {n}, log, if n in serial then fate[serial[n] := Dropped] else fate)
    }

    /** Node `n` of a new block with hash `h`. */
    ghost function Add(n: Ptr, e: Ptr, h: nat): State<F> {
      State(hash[e := h], data[n := e], body, nodes, stamp[n := 0], serial[n := |fate|], log, fate + [Held(n)])
    }

    ghost function Unlist(k: nat): State<F>
      requires k < |nodes|
    {
      this.(nodes := Without(nodes, k), stamp := stamp[nodes[k] := 0])
    }

    /** sftfs_cache_take, before it evicts: an entry that is taken already stays so. */
    ghost function Take(n: Ptr): State<F> {
      if n in nodes then Unlist(IndexOf(nodes, n)) else this
    }

    ghost function Enlist(n: Ptr, t: nat): State<F> {
      this.(nodes := nodes + [n], stamp := stamp[n := t])
    }

    /** What is stored behind the taken nodes. */
    ghost function Open(): map<Ptr, F> {
      map n | n in body && n !in nodes :: body[n]
    }

    ghost function SetBody(n: Ptr, f: F): State<F> {
      this.(body := body[n := f])
    }

    lemma Known(n: Ptr)
      requires Valid() && n in data
      ensures data[n] in hash && n in stamp && (n in serial ==> serial[n] < |fate| && fate[serial[n]] == Held(n))
      ensures n in nodes ==> n in serial
      ensures n != NULL && data[n] != NULL
    {
    }

    lemma ListedKnown()
      requires Valid()
      ensures forall n {:trigger n in nodes} :: n in nodes ==> n in data && n in stamp && n in serial
      ensures forall n :: n in serial ==> n in data
      ensures Distinct(nodes)
    {
    }

    lemma BodiesOwned()
      requires Valid()
      ensures body.Keys <= data.Keys
    {
    }

    lemma SetBodyValid(n: Ptr, f: F)
      requires Valid() && n in data
      ensures SetBody(n, f).Valid()
    {
    }

    lemma NodesApart(m: Ptr, n: Ptr)
      requires Valid() && m in data && n in data && m != n
      ensures data[m] != data[n]
    {
    }

    lemma EntryKnown(e: Ptr)
      requires Valid() && e in hash
      ensures var n := NodeOf(e);
        n in data && data[n] == e && n in stamp && n != NULL && (n in nodes ==> n in serial)
    {
    }

    lemma ReportValid(n: Ptr)
      requires Valid() && n in serial && n !in nodes
      ensures serial[n] < |fate| && Report(n).Valid()
    {
      ReportAccounted(n);
    }

    lemma ReportAccounted(n: Ptr)
      requires Accounted() && n in serial
      ensures serial[n] < |fate| && Report(n).Accounted()
    {
      var s := serial[n];
      var after := Report(n);
      assert after.log[|log|] == s;
      assert forall i :: 0 <= i < |log| ==> log[i] in log && after.log[i] == log[i];
      assert forall i :: i in log ==> i in after.log;
    }

    lemma FreeValid(n: Ptr)
      requires Valid() && n in data && n !in nodes
      ensures Freeable(n) && Free(n).Valid()
    {
    }

    lemma AddValid(n: Ptr, e: Ptr, h: nat)
      requires Valid() && e !in hash && e != NULL && n == NodeOf(e)
      ensures n !in data && Add(n, e, h).Valid()
    {
      assert n !in data;
      hide State.Linked, State.Listed, State.Accounted;
      AddLinked(n, e, h);
      AddListed(n, e, h);
      AddAccounted(n, e, h);
    }

    lemma AddLinked(n: Ptr, e: Ptr, h: nat)
      requires Linked() && e !in hash && e != NULL && n == NodeOf(e)
      ensures n !in data && Add(n, e, h).Linked()
    {
      assert n !in data;
    }

    lemma AddListed(n: Ptr, e: Ptr, h: nat)
      requires Listed() && Linked() && n !in data
      ensures Add(n, e, h).Listed()
    {
      hide Distinct;
      assert forall k :: 0 <= k < |nodes| ==> nodes[k] in nodes;
    }

    lemma AddAccounted(n: Ptr, e: Ptr, h: nat)
      requires Accounted() && n !in serial
      ensures Add(n, e, h).Accounted()
    {
    }

    lemma UnlistValid(k: nat)
      requires Valid() && k < |nodes|
      ensures Unlist(k).Valid() && nodes[k] !in Unlist(k).nodes && nodes[k] in data && nodes[k] in serial
    {
      WithoutMembers(nodes, k);
      DropSorted(nodes, stamp, k);
      assert nodes[k] in nodes;
    }

    lemma TakeValid(n: Ptr)
      requires Valid() && n in data
      ensures Take(n).Valid() && n !in Take(n).nodes && Take(n).data == data
      ensures n in nodes ==> n in serial
    {
      if n in nodes {
        UnlistValid(IndexOf(nodes, n));
      }
    }

    lemma TakeUnlists(n: Ptr)
      requires Valid()
      ensures n !in Take(n).nodes && forall m :: m in Take(n).nodes ==> m in nodes
    {
      if n in nodes {
        WithoutMembers(nodes, IndexOf(nodes, n));
      }
    }

    lemma EnlistValid(n: Ptr, t: nat)
      requires Valid() && n in serial && n !in nodes && forall k :: 0 <= k < |nodes| ==>
        nodes[k] in stamp && stamp[nodes[k]] <= t
      ensures Enlist(n, t).Valid()
    {
      AppendMembers(nodes, n);
      AppendSorted(nodes, stamp, n, t);
    }

    ghost function EvictOldest(): State<F>
      requires Valid() && nodes != []
    {
      UnlistValid(0);
      var s := Unlist(0);
      s.ReportValid(nodes[0]);
      var r := s.Report(nodes[0]);
      r.FreeValid(nodes[0]);
      r.Free(nodes[0])
    }

    lemma EvictOldestValid()
      requires Valid() && nodes != []
      ensures EvictOldest().Valid() && EvictOldest().nodes == nodes[1..]
      ensures nodes[0] in stamp
    {
      assert nodes[0] in stamp;
      hide State.Valid;
      UnlistValid(0);
      var s := Unlist(0);
      s.ReportValid(nodes[0]);
      s.Report(nodes[0]).FreeValid(nodes[0]);
    }

    // The states the program passes through while it evicts the oldest node.
    lemma EvictingSteps()
      requires Valid() && nodes != []
      ensures var n := nodes[0];
        && n in stamp && Unlist(0).Valid() && n in serial && serial[n] < |fate|
        && Unlist(0).Report(n).Valid() && n in data && n !in Unlist(0).nodes && n !in Unlist(0).Report(n).serial
        && EvictOldest() == Unlist(0).Report(n).Free(n)
    {
      assert nodes[0] in stamp;
      hide State.Valid;
      UnlistValid(0);
      Unlist(0).ReportValid(nodes[0]);
    }

    /** evict_invalid_lru_entries, at one reading of the clock. */
    ghost function Evict(ttl: nat, t: nat): State<F>
      requires Valid()
      decreases |nodes|
    {
      if nodes == [] then this else
      EvictOldestValid();
      if Expired(stamp[nodes[0]], ttl, t) then EvictOldest().Evict(ttl, t) else this
    }

    /** sftfs_cache_free on a taken node. */
    ghost function Freed(n: Ptr, ttl: nat, t: nat): State<F>
      requires Valid() && n !in nodes
    {
      if n !in data then this else
      FreeValid(n);
      Free(n).Evict(ttl, t)
    }

    /** sftfs_cache_take */
    ghost function Taken(n: Ptr, ttl: nat, t: nat): State<F>
      requires Valid()
    {
      if n !in data then this else
      TakeValid(n);
      Take(n).Evict(ttl, t)
    }

    /** sftfs_cache_give: `t` is the last reading while evicting, `t'` the stamp. Only what is taken can
        be given. */
    ghost function Given(n: Ptr, ttl: nat, t: nat, t': nat): State<F>
      requires Valid()
    {
      if n in data && n !in nodes then Evict(ttl, t).Enlist(n, t') else Evict(ttl, t)
    }

    /** sftfs_cache_invalidate */
    ghost function Invalidated(n: Ptr, ttl: nat, t: nat, t': nat): State<F>
      requires Valid() && (n in data ==> n in serial)
    {
      if n !in data then this else
      InvalidatingSteps(n, ttl, t);
      Taken(n, ttl, t).Report(n).Freed(n, ttl, t')
    }

    // The states the program passes through while it invalidates an entry.
    lemma InvalidatingSteps(n: Ptr, ttl: nat, t: nat)
      requires Valid() && n in serial
      ensures n in data && Taken(n, ttl, t).Valid() && n in Taken(n, ttl, t).data && n in Taken(n, ttl, t).serial
      ensures Taken(n, ttl, t).serial[n] < |Taken(n, ttl, t).fate|
      ensures Taken(n, ttl, t).Report(n).Valid() && n !in Taken(n, ttl, t).Report(n).nodes
      ensures n in Taken(n, ttl, t).Report(n).data
    {
      ListedKnown();
      hide State.Valid;
      TakeValid(n);
      Take(n).EvictKeepsTaken(n, ttl, t);
      Taken(n, ttl, t).ReportValid(n);
    }

    /** The callback is called on each of these nodes, in this order. */
    ghost function ReportAll(ns: seq<Ptr>): State<F>
      requires forall k :: 0 <= k < |ns| ==> ns[k] in serial
    {
      this.(log := log + seq(|ns|, k requires 0 <= k < |ns| => serial[ns[k]]),
            fate := seq(|fate|, s requires 0 <= s < |fate| =>
              if fate[s].Held? && fate[s].node in ns then Reported else fate[s]),
            serial := serial - SetOf(ns))
    }

    /** Every block is freed. */
    ghost function FreeAll(): State<F> {
      State(map[], map[], map[], [], map[], map[], log,
            seq(|fate|, s requires 0 <= s < |fate| => if fate[s].Held? then Dropped else fate[s]))
    }

    lemma ReportOneMore(ns: seq<Ptr>, n: Ptr)
      requires Accounted() && (forall k :: 0 <= k < |ns| ==> ns[k] in serial) && n in serial && n !in ns
      ensures var s := ReportAll(ns);
        n in s.serial && s.serial[n] < |s.fate| && s.Report(n) == ReportAll(ns + [n])
    {
      var a, b := ReportAll(ns).Report(n), ReportAll(ns + [n]);
      assert n in ReportAll(ns).serial;
      assert a.log == b.log;
      assert a.serial == b.serial;
      assert forall m :: m in ns + [n] <==> m in ns || m == n;
      assert a.fate == b.fate;
    }

    lemma ReportNone()
      ensures ReportAll([]) == this
    {
      assert ReportAll([]).fate == fate && ReportAll([]).log == log && ReportAll([]).serial == serial;
    }

    // No entry gets into the log twice.
    lemma ReportedOnce(ns: seq<Ptr>)
      requires Accounted() && Distinct(ns) && forall k :: 0 <= k < |ns| ==> ns[k] in serial
      ensures Distinct(ReportAll(ns).log)
    {
      var after := ReportAll(ns);
      forall i, j | 0 <= i < j < |after.log| ensures after.log[i] != after.log[j] {
        if |log| <= j {
          assert after.log[j] == serial[ns[j - |log|]];
          if i < |log| {
            assert log[i] in log;
          } else {
            assert after.log[i] == serial[ns[i - |log|]];
          }
        }
      }
    }

    // The log then holds the entries whose fate it is to be reported.
    lemma ReportedLogged(ns: seq<Ptr>)
      requires Accounted() && forall k :: 0 <= k < |ns| ==> ns[k] in serial
      ensures forall s :: s in ReportAll(ns).log <==> 0 <= s < |fate| && ReportAll(ns).fate[s] == Reported
    {
      var after := ReportAll(ns);
      forall s | s in after.log ensures s < |fate| && after.fate[s] == Reported {
        var k :| 0 <= k < |after.log| && after.log[k] == s;
        if k < |log| {
          assert log[k] in log;
        } else {
          assert s == serial[ns[k - |log|]];
        }
      }
      forall s | 0 <= s < |fate| && after.fate[s] == Reported ensures s in after.log {
        if fate[s] == Reported {
          var k :| 0 <= k < |log| && log[k] == s;
          assert after.log[k] == s;
        } else {
          var k :| 0 <= k < |ns| && ns[k] == fate[s].node;
          assert after.log[|log| + k] == s;
        }
      }
    }

    /** Clearing after reporting exactly the listed nodes: each of them is in the log once more,
        every other entry is dropped, and nothing is left. */
    lemma ClearedValid(ns: seq<Ptr>)
      requires Valid() && Distinct(ns) && forall n :: n in ns <==> n in nodes
      ensures forall k :: 0 <= k < |ns| ==> ns[k] in serial
      ensures ReportAll(ns).FreeAll().Valid() && ReportAll(ns).FreeAll().Settled()
      ensures forall n :: n in serial ==> serial[n] < |fate|
      ensures forall n :: n in serial ==>
        ReportAll(ns).FreeAll().fate[serial[n]] == if n in nodes then Reported else Dropped
    {
      assert forall k :: 0 <= k < |ns| ==> ns[k] in ns;
      ReportedOnce(ns);
      ReportedLogged(ns);
    }

    lemma InvalidatedValid(n: Ptr, ttl: nat, t: nat, t': nat)
      requires Valid() && n in serial
      ensures Invalidated(n, ttl, t, t').Valid()
      ensures Settled() ==> Invalidated(n, ttl, t, t').Settled()
    {
      hide State.Valid;
      InvalidatingSteps(n, ttl, t);
      TakeValid(n);
      Take(n).EvictValid(ttl, t);
      var s := Taken(n, ttl, t).Report(n);
      s.FreeValid(n);
      s.Free(n).EvictValid(ttl, t');
    }

    /** sftfs_cache_rehash_entry */
    ghost function Rehashed(n: Ptr, h: nat): State<F> {
      if n in data then this.(hash := hash[data[n] := h]) else this
    }

    lemma RehashedValid(n: Ptr, h: nat)
      requires Valid()
      ensures Rehashed(n, h).Valid()
    {
    }

    lemma {:induction false} EvictValid(ttl: nat, t: nat)
      requires Valid()
      ensures Evict(ttl, t).Valid()
      ensures Settled() ==> Evict(ttl, t).Settled()
      decreases |nodes|
    {
      if nodes != [] {
        EvictOldestValid();
        if Expired(stamp[nodes[0]], ttl, t) {
          EvictOldest().EvictValid(ttl, t);
        }
      }
    }

    /** The listed nodes that have expired at time `t`. */
    ghost function Gone(ttl: nat, t: nat): set<Ptr> {
      set n | n in nodes && n in stamp && Expired(stamp[n], ttl, t)
    }

    lemma EvictOldestFields()
      requires Valid() && nodes != []
      ensures var n, after := nodes[0], EvictOldest();
        && after.Valid() && n in serial && n in data && n in stamp
        && after.nodes == nodes[1..] && n !in nodes[1..]
        && after.data == data - {n} && after.stamp == stamp - {n} && after.hash == hash - {data[n]}
        && after.body == body - {n} && after.serial == serial - {n} && after.log == log + [serial[n]]
    {
      EvictOldestValid();
      UnlistValid(0);
    }

    /** Evicting from the old end filters the whole list. */
    lemma {:induction false} EvictFilters(ttl: nat, t: nat)
      requires Valid()
      ensures forall k :: 0 <= k < |nodes| ==> nodes[k] in stamp
      ensures Evict(ttl, t).nodes == Live(nodes, stamp, ttl, t)
      decreases |nodes|
    {
      assert Sorted(nodes, stamp);
      if nodes != [] {
        EvictOldestFields();
        if Expired(stamp[nodes[0]], ttl, t) {
          EvictOldest().EvictFilters(ttl, t);
          LiveIgnores(nodes[1..], stamp, EvictOldest().stamp, ttl, t);
        } else {
          EvictingIsFiltering(nodes, stamp, ttl, t, 0);
        }
      }
    }

    /** Evicting frees exactly the listed nodes that have expired and changes no field of the rest. */
    lemma {:induction false} EvictFrees(ttl: nat, t: nat)
      requires Valid()
      ensures Evict(ttl, t).data == data - Gone(ttl, t)
      ensures Evict(ttl, t).stamp == stamp - Gone(ttl, t)
      ensures Evict(ttl, t).body == body - Gone(ttl, t)
      ensures Evict(ttl, t).serial == serial - Gone(ttl, t)
      decreases |nodes|
    {
      if nodes == [] {
        assert Gone(ttl, t) == {};
      } else {
        EvictOldestFields();
        hide State.EvictOldest, State.Valid;
        if Expired(stamp[nodes[0]], ttl, t) {
          var next := EvictOldest();
          next.EvictFrees(ttl, t);
          GoneOldest(ttl, t);
          hide State.Gone;
          var n, gone := nodes[0], next.Gone(ttl, t);
          KeysDropped(data, {n}, gone);
          KeysDropped(stamp, {n}, gone);
          KeysDropped(body, {n}, gone);
          KeysDropped(serial, {n}, gone);
        } else {
          NoneGone(ttl, t);
        }
      }
    }

    lemma GoneOldest(ttl: nat, t: nat)
      requires Valid() && nodes != [] && nodes[0] in stamp && Expired(stamp[nodes[0]], ttl, t)
      ensures Gone(ttl, t) == {nodes[0]} + EvictOldest().Gone(ttl, t)
    {
      EvictOldestFields();
    }

    // If the oldest node is still live, all of them are.
    lemma NoneGone(ttl: nat, t: nat)
      requires Valid() && (nodes != [] ==> nodes[0] in stamp && !Expired(stamp[nodes[0]], ttl, t))
      ensures Gone(ttl, t) == {}
    {
    }

    lemma EvictOldestFates()
      requires Valid() && nodes != []
      ensures EvictOldest().Valid() && nodes[0] in serial && serial[nodes[0]] < |fate|
      ensures fate[serial[nodes[0]]] == Held(nodes[0])
      ensures EvictOldest().fate == fate[serial[nodes[0]] := Reported]
    {
      EvictOldestFields();
      UnlistValid(0);
    }

    /** Evicting reports exactly the listed nodes that have expired and settles no other fate. */
    lemma {:induction false} EvictReports(ttl: nat, t: nat)
      requires Valid()
      ensures |Evict(ttl, t).fate| == |fate|
      ensures forall s :: 0 <= s < |fate| ==>
        Evict(ttl, t).fate[s] == if fate[s].Held? && fate[s].node in Gone(ttl, t) then Reported else fate[s]
      decreases |nodes|
    {
      if nodes == [] {
        assert Gone(ttl, t) == {};
      } else {
        EvictOldestFates();
        EvictOldestFields();
        hide State.EvictOldest;
        if Expired(stamp[nodes[0]], ttl, t) {
          EvictOldest().EvictReports(ttl, t);
          GoneOldest(ttl, t);
          HeldOnce(nodes[0]);
          hide State.Valid, State.Gone;
        } else {
          NoneGone(ttl, t);
        }
      }
    }

    /** Evicting, entry by entry: one that is not listed or not too old stays as it is, and one that is listed
        and too old is reported and gone. */
    lemma EvictEach(ttl: nat, t: nat)
      requires Valid()
      ensures forall n :: n in nodes ==> n in stamp && n in serial && serial[n] < |fate|
      ensures forall n :: n in Evict(ttl, t).nodes <==> n in nodes && t <= stamp[n] + ttl
      ensures forall n :: n in Evict(ttl, t).data <==> n in data && (n in nodes ==> t <= stamp[n] + ttl)
      ensures |Evict(ttl, t).fate| == |fate|
      ensures forall n :: n in nodes && stamp[n] + ttl < t ==> Evict(ttl, t).fate[serial[n]] == Reported
      ensures forall n :: n in serial && serial[n] < |fate| && (n in nodes ==> t <= stamp[n] + ttl) ==>
        Evict(ttl, t).fate[serial[n]] == Held(n)
    {
      hide State.Evict;
      EvictFilters(ttl, t);
      EvictFrees(ttl, t);
      EvictReports(ttl, t);
      LiveMembers(nodes, stamp, ttl, t);
    }

    // A node is held under one serial number.
    lemma HeldOnce(n: Ptr)
      requires Accounted() && n in serial
      ensures forall s :: 0 <= s < |fate| && fate[s] == Held(n) ==> s == serial[n]
    {
    }

    /** An entry freed while it is taken goes without a report. */
    lemma FreedDropped(n: Ptr, ttl: nat, t: nat)
      requires Valid() && n in serial && n !in nodes
      ensures serial[n] < |Freed(n, ttl, t).fate| && Freed(n, ttl, t).fate[serial[n]] == Dropped
    {
      hide Distinct, Sorted;
      Known(n);
      FreeValid(n);
      Free(n).EvictReports(ttl, t);
    }

    /** An entry that is invalidated is reported, listed or taken. */
    lemma InvalidatedReported(n: Ptr, ttl: nat, t: nat, t': nat)
      requires Valid() && n in serial
      ensures serial[n] < |Invalidated(n, ttl, t, t').fate|
      ensures Invalidated(n, ttl, t, t').fate[serial[n]] == Reported
    {
      hide Distinct, Sorted;
      Known(n);
      TakeValid(n);
      InvalidatingSteps(n, ttl, t);
      TakeUnlists(n);
      var taken := Taken(n, ttl, t);
      Take(n).EvictReports(ttl, t);
      var reported := taken.Report(n);
      reported.FreeValid(n);
      reported.Free(n).EvictReports(ttl, t');
    }

    /** The hash of node `n`'s table entry. */
    ghost function HashOf(n: Ptr): nat
      requires Linked() && n in data
    {
      hash[data[n]]
    }

    lemma {:induction false} EvictKeepsHashes(ttl: nat, t: nat)
      requires Valid()
      ensures Evict(ttl, t).Valid()
      ensures forall n :: n in Evict(ttl, t).data ==> n in data && Evict(ttl, t).HashOf(n) == HashOf(n)
      decreases |nodes|
    {
      EvictValid(ttl, t);
      if nodes != [] {
        EvictOldestFields();
        if Expired(stamp[nodes[0]], ttl, t) {
          EvictOldest().EvictKeepsHashes(ttl, t);
        }
      }
    }

    /** A taken node is never evicted. */
    lemma EvictKeepsTaken(n: Ptr, ttl: nat, t: nat)
      requires Valid() && n !in nodes
      ensures Evict(ttl, t).Valid() && n !in Evict(ttl, t).nodes
      ensures n in Evict(ttl, t).data <==> n in data
      ensures n in Evict(ttl, t).serial <==> n in serial
    {
      EvictValid(ttl, t);
      EvictFilters(ttl, t);
      EvictFrees(ttl, t);
      LiveMembers(nodes, stamp, ttl, t);
    }

    /** A listed node that cannot have expired stays listed. */
    lemma EvictKeepsLive(n: Ptr, ttl: nat, t: nat)
      requires Valid() && n in nodes && n in stamp && !Expired(stamp[n], ttl, t)
      ensures Evict(ttl, t).Valid() && n in Evict(ttl, t).nodes && n in Evict(ttl, t).data
    {
      EvictValid(ttl, t);
      EvictFilters(ttl, t);
      EvictFrees(ttl, t);
      LiveMembers(nodes, stamp, ttl, t);
    }

    lemma EvictKeepsOpen(ttl: nat, t: nat)
      requires Valid()
      ensures Evict(ttl, t).Open() == Open()
    {
      EvictFilters(ttl, t);
      EvictFrees(ttl, t);
      LiveMembers(nodes, stamp, ttl, t);
    }

    lemma OpenKnown(n: Ptr)
      requires Valid()
      ensures n in Open() ==> n in data && n in body && n !in nodes && Open()[n] == body[n]
      ensures n in Open() && Settled() ==> n in serial
    {
    }

    lemma NotOpen(n: Ptr, f: F)
      requires n in nodes
      ensures n !in Open() && Open()[n := f] - {n} == Open()
    {
    }

    lemma TakeOpens(n: Ptr)
      requires Valid() && n in nodes && n in body
      ensures Take(n).Open() == Open()[n := body[n]]
    {
      WithoutMembers(nodes, IndexOf(nodes, n));
    }

    lemma EnlistCloses(n: Ptr, t: nat)
      ensures Enlist(n, t).Open() == Open() - {n}
    {
      assert Enlist(n, t).nodes[|nodes|] == n;
      assert forall m :: m in nodes + [n] <==> m in nodes || m == n;
    }

    /** A taken node gets another body and another hash. */
    ghost function Moved(n: Ptr, f: F, h: nat): State<F> {
      SetBody(n, f).Rehashed(n, h)
    }

    lemma MovedValid(n: Ptr, f: F, h: nat)
      requires Valid() && n in data
      ensures SetBody(n, f).Valid() && Moved(n, f, h).Valid()
    {
      hide State.Valid;
      SetBodyValid(n, f);
      SetBody(n, f).RehashedValid(n, h);
    }

    /** It makes no difference to evicting. */
    lemma {:induction false} MoveThenEvict(n: Ptr, f: F, h: nat, ttl: nat, t: nat)
      requires Valid() && n in data && n !in nodes
      ensures Moved(n, f, h).Valid() && Evict(ttl, t).Valid()
      ensures Moved(n, f, h).Evict(ttl, t) == Evict(ttl, t).Moved(n, f, h)
      decreases |nodes|
    {
      hide State.Valid;
      MovedValid(n, f, h);
      EvictValid(ttl, t);
      if nodes != [] {
        EvictOldestFields();
        Moved(n, f, h).EvictOldestFields();
        MoveThenEvictOldest(n, f, h);
        if Expired(stamp[nodes[0]], ttl, t) {
          EvictOldest().MoveThenEvict(n, f, h, ttl, t);
        }
      }
    }

    lemma MoveThenEvictOldest(n: Ptr, f: F, h: nat)
      requires Valid() && n in data && n !in nodes && nodes != [] && Moved(n, f, h).Valid()
      ensures Moved(n, f, h).EvictOldest() == EvictOldest().Moved(n, f, h)
    {
      hide State.Valid, State.EvictOldest;
      EvictingSteps();
      Moved(n, f, h).EvictingSteps();
      assert nodes[0] in nodes;
      NodesApart(nodes[0], n);
      var a, b := Moved(n, f, h).EvictOldest(), EvictOldest().Moved(n, f, h);
      assert a.hash == b.hash;
      assert a.body == b.body;
    }

    lemma {:induction false} EvictShrinks(ttl: nat, t: nat)
      requires Valid()
      ensures Evict(ttl, t).hash.Keys <= hash.Keys
      decreases |nodes|
    {
      if nodes != [] {
        EvictOldestFields();
        if Expired(stamp[nodes[0]], ttl, t) {
          EvictOldest().EvictShrinks(ttl, t);
        }
      }
    }

    /** Evicting at one reading and again at a later one is evicting at the later one. */
    lemma {:induction false} EvictTwice(ttl: nat, t: nat, t': nat)
      requires Valid() && t <= t'
      ensures Evict(ttl, t).Valid() && Evict(ttl, t).Evict(ttl, t') == Evict(ttl, t')
      decreases |nodes|
    {
      if nodes != [] {
        EvictOldestFields();
        if Expired(stamp[nodes[0]], ttl, t) {
          EvictOldest().EvictTwice(ttl, t, t');
        }
      }
    }
  }

  /** From time `t0` on, evicting leads from either state to the same one. */
  ghost predicate SameFuture<F>(a: State<F>, b: State<F>, ttl: nat, t0: nat)
    requires a.Valid() && b.Valid()
  {
    forall t: nat {:trigger b.Evict(ttl, t)} :: t0 <= t ==> a.Evict(ttl, t) == b.Evict(ttl, t)
  }

  lemma FutureStarts<F>(a: State<F>, ttl: nat, t0: nat)
    requires a.Valid()
    ensures SameFuture(a, a, ttl, t0)
  {
  }

  lemma FutureStep<F>(a: State<F>, b: State<F>, ttl: nat, t0: nat, t1: nat)
    requires a.Valid() && b.Valid() && SameFuture(a, b, ttl, t0) && t0 <= t1
    requires b.nodes != [] && b.nodes[0] in b.stamp && Expired(b.stamp[b.nodes[0]], ttl, t1)
    ensures b.EvictOldest().Valid() && SameFuture(a, b.EvictOldest(), ttl, t1)
  {
    b.EvictOldestValid();
    forall t: nat | t1 <= t ensures a.Evict(ttl, t) == b.EvictOldest().Evict(ttl, t) {
      assert b.Evict(ttl, t) == b.EvictOldest().Evict(ttl, t);
    }
  }

  lemma FutureEnds<F>(a: State<F>, b: State<F>, ttl: nat, t0: nat, t1: nat)
    requires a.Valid() && b.Valid() && SameFuture(a, b, ttl, t0) && t0 <= t1
    requires b.nodes != [] ==> b.nodes[0] in b.stamp && !Expired(b.stamp[b.nodes[0]], ttl, t1)
    ensures b == a.Evict(ttl, t1)
  {
    assert b.Evict(ttl, t1) == b;
  }
}
