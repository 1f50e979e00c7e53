/** The map from open file handles to their paths (sftfs_cached_handle_path and its companions in
    src/endp/cached.c): a hash table in which the handle itself is the hash. */
module HandleMaps {
  import opened Memory
  import opened Primes
  import opened HashTables

  /** What the endpoint does with its handles. */
  datatype HandleOp = Open(handle: nat, path: string) | Close(handle: nat) | Get(handle: nat)

  /** The path most recently registered for the handle in the first `n` operations, unless it was
      closed since. */
  ghost function Registered(ops: seq<HandleOp>, n: nat, handle: nat): Option<string>
    requires n <= |ops|
  {
    if n == 0 then None
    else match ops[n - 1]
      case Open(h, path) => if h == handle then Some(path) else Registered(ops, n - 1, handle)
      case Close(h) => if h == handle then None else Registered(ops, n - 1, handle)
      case Get(_) => Registered(ops, n - 1, handle)
  }

  /** That is the path of some operation that opened the handle, with none behind it that opened or
      closed the same handle. */
  lemma {:induction false} RegisteredIff(ops: seq<HandleOp>, n: nat, handle: nat, path: string)
    requires n <= |ops|
    ensures Registered(ops, n, handle) == Some(path) <==>
      exists j :: 0 <= j < n && ops[j] == Open(handle, path) &&
        forall k :: j < k < n ==> ops[k].Get? || ops[k].handle != handle
  {
    if n > 0 {
      RegisteredIff(ops, n - 1, handle, path);
    }
  }

  /** Nothing was opened anew or closed since operation `j`. */
  ghost predicate Undisturbed(ops: seq<HandleOp>, j: nat, n: nat)
    requires n <= |ops|
  {
    forall k :: j < k < n ==> ops[k].Get? || (ops[k].Open? && Registered(ops, k, ops[k].handle) == None)
  }

  /** Every handle that was opened and undisturbed since has its entry. */
  ghost predicate AllThere(m: map<nat, string>, ops: seq<HandleOp>, n: nat)
    requires n <= |ops|
  {
    forall j :: 0 <= j < n && ops[j].Open? && Undisturbed(ops, j, n) ==>
      ops[j].handle in m && m[ops[j].handle] == ops[j].path
  }

  lemma StepAllThere(m: map<nat, string>, m': map<nat, string>, ops: seq<HandleOp>, i: nat)
    requires i < |ops| && UpToDate(m, ops, i) && AllThere(m, ops, i)
    requires match ops[i]
      case Open(h, path) => h in m' && m'[h] == path && (h !in m ==> m' == m[h := path])
      case Close(_) => true
      case Get(_) => m' == m
    ensures AllThere(m', ops, i + 1)
  {
    forall j | 0 <= j < i && ops[j].Open? && Undisturbed(ops, j, i + 1)
      ensures ops[j].handle in m' && m'[ops[j].handle] == ops[j].path
    {
      assert Undisturbed(ops, j, i);
      if ops[i].Open? {
        assert Registered(ops, i, ops[i].handle) == None;
      }
    }
  }

  /** Every entry of `m` is what was last registered for its handle. */
  ghost predicate UpToDate(m: map<nat, string>, ops: seq<HandleOp>, n: nat)
    requires n <= |ops|
  {
    forall h :: h in m ==> Registered(ops, n, h) == Some(m[h])
  }

  /** One entry a handle, standing for the handle's path. */
  ghost predicate Stands(hash: map<Ptr, nat>, payload: map<Ptr, string>, m: map<nat, string>) {
    && payload.Keys == hash.Keys
    && (forall e {:trigger hash[e]} :: e in hash ==> hash[e] in m && m[hash[e]] == payload[e])
    && (forall e, e' {:trigger hash[e], hash[e']} :: e in hash && e' in hash && hash[e] == hash[e'] ==> e == e')
    && (forall h {:trigger h in m} :: h in m ==> HasEntry(hash, h))
  }

  ghost predicate HasEntry(hash: map<Ptr, nat>, h: nat) {
    exists e :: e in hash && hash[e] == h
  }

  /** The handles that lose their entry when sftfs_htable_remove_hash is called for `h`. */
  ghost function Lost(t: Contents, h: nat): set<nat>
    requires t.Valid()
  {
    t.ChainsHold();
    set j | t.Search(h, 0) <= j < |t.ChainOf(h)| :: t.hash[t.ChainOf(h)[j]]
  }

  /** The entries that go with them. */
  ghost function Gone(t: Contents, h: nat): set<Ptr>
    requires t.Valid()
  {
    SetOf(t.ChainOf(h)[t.Search(h, 0)..])
  }

  // The payloads of the entries that are left.
  function KeptFor(payload: map<Ptr, string>, hash: map<Ptr, nat>): map<Ptr, string> {
    map e | e in payload && e in hash :: payload[e]
  }

  lemma RemoveStands(t: Contents, payload: map<Ptr, string>, m: map<nat, string>, h: nat)
    requires t.Valid() && Stands(t.hash, payload, m)
    ensures Stands(t.hash - Gone(t, h), KeptFor(payload, t.hash - Gone(t, h)), m - Lost(t, h))
  {
    var c, i := t.ChainOf(h), t.Search(h, 0);
    var gone := Gone(t, h);
    t.ChainsHold();
    forall e | e in t.hash ensures e in gone <==> t.hash[e] in Lost(t, h) {
      if e in gone {
        var j :| 0 <= j < |c[i..]| && c[i..][j] == e;
        assert c[i + j] == e;
      }
    }
    forall h' | h' in m - Lost(t, h) ensures HasEntry(t.hash - gone, h') {
      var e :| e in t.hash && t.hash[e] == h';
      assert e in t.hash - gone;
    }
  }

  // The handles lost are registered ones of the same bucket, the handle itself among them if it is
  // registered; if it is not, there are none.
  lemma LostWith(t: Contents, payload: map<Ptr, string>, m: map<nat, string>, h: nat)
    requires t.Valid() && Stands(t.hash, payload, m)
    ensures Lost(t, h) <= m.Keys
    ensures h in m <==> h in Lost(t, h)
    ensures h !in m ==> Lost(t, h) == {}
    ensures t.chains != [] && forall h' :: h' in Lost(t, h) ==> Home(h', |t.chains|) == Home(h, |t.chains|)
  {
    hide Home;
    var c, i := t.ChainOf(h), t.Search(h, 0);
    t.ChainsHold();
    forall h' | h' in Lost(t, h) ensures h' in m && Home(h', |t.chains|) == Home(h, |t.chains|) {
      var j :| i <= j < |c| && t.hash[c[j]] == h';
      t.Position(Home(h, |t.chains|), j);
    }
    if i < |c| {
      assert t.hash[c[i]] in Lost(t, h);
    }
  }

  // Two numbers with the same remainder are a multiple apart.
  lemma Apart(a: nat, b: nat, n: nat)
    requires n > 0 && Home(a, n) == Home(b, n)
    ensures (a - b) % n == 0
  {
    assert a == a / n * n + a % n && b == b / n * n + b % n;
    var q, d := a / n - b / n, a / n - b / n - (a - b) / n;
    assert a - b == q * n && a - b == (a - b) / n * n + (a - b) % n;
    assert d * n == (a - b) % n;
    assert d >= 1 ==> d * n >= n;
    assert d <= -1 ==> d * n + n <= 0;
  }

  // None but the handle is lost exactly when its entry ends the chain.
  lemma LostAlone(t: Contents, e: Ptr, h: nat)
    requires t.Valid() && e in t.hash && t.hash[e] == h
    requires forall e' :: e' in t.hash && t.hash[e'] == h ==> e' == e
    ensures e in t.next && (Lost(t, h) == {h} <==> t.next[e] == NULL)
  {
    var c, i := t.ChainOf(h), t.Search(h, 0);
    t.ChainsHold();
    var b, k := t.Find(e);
    assert i <= k && c[i] == e;
    t.Position(b, i);
    if i + 1 < |c| {
      t.Position(b, i + 1);
      assert t.hash[c[i + 1]] in Lost(t, h);
      assert c[i + 1] != e;
    }
  }

  lemma GoneIs(t: Contents, h: nat)
    requires t.Valid()
    ensures var b := Home(h, |t.chains|); Gone(t, h) == SetOf(t.chains[b][t.Search(h, 0)..])
    ensures t.ChainOf(h) == t.chains[Home(h, |t.chains|)]
  {
  }

  // Nothing is cut off a chain when the handle is not registered.
  lemma NothingLost(t: Contents, payload: map<Ptr, string>, m: map<nat, string>, h: nat)
    requires t.Valid() && Stands(t.hash, payload, m) && h !in m
    ensures Gone(t, h) == {}
    ensures t.chains[Home(h, |t.chains|) := t.ChainOf(h)[..t.Search(h, 0)]] == t.chains
  {
    hide Home, Contents.Homed, Contents.Covered, Contents.Linked;
    t.ChainsHold();
    assert t.Search(h, 0) == |t.ChainOf(h)|;
    assert t.ChainOf(h)[..t.Search(h, 0)] == t.ChainOf(h);
  }

  /** The entry of a handle is the last one of its chain, or there is none. */
  ghost predicate EndsChain(t: Contents, handle: nat) {
    forall e :: e in t.hash && t.hash[e] == handle ==> e in t.next && t.next[e] == NULL
  }

  lemma EntryOf(t: Contents, payload: map<Ptr, string>, m: map<nat, string>, h: nat)
    requires t.Valid() && Stands(t.hash, payload, m)
    ensures t.next.Keys == t.hash.Keys
    ensures h in m <==> HasEntry(t.hash, h)
    ensures forall e, e' :: e in t.hash && e' in t.hash && t.hash[e] == t.hash[e'] ==> e == e'
  {
  }

  lemma OnlyLost(t: Contents, payload: map<Ptr, string>, m: map<nat, string>, h: nat)
    requires t.Valid() && Stands(t.hash, payload, m)
    ensures h !in m ==> EndsChain(t, h) && m - Lost(t, h) == m
    ensures m - Lost(t, h) == m - {h} <==> EndsChain(t, h)
    ensures t.chains != [] && forall h' :: h' in m && h' !in m - Lost(t, h) ==> (h' - h) % |t.chains| == 0
  {
    hide Contents.Valid, Lost, Stands, Home;
    LostWith(t, payload, m, h);
    EntryOf(t, payload, m, h);
    forall h' | h' in Lost(t, h) ensures (h' - h) % |t.chains| == 0 {
      Apart(h', h, |t.chains|);
    }
    if h in m {
      var lost := Lost(t, h);
      var e :| e in t.hash && t.hash[e] == h;
      LostAlone(t, e, h);
      if m - lost == m - {h} {
        forall k | k in lost ensures k == h {
          assert k !in m - lost;
        }
      }
    }
  }

  /** The chains with an entry for the handle pushed in front of its chain. */
  ghost predicate PushedOn(chains: seq<seq<Ptr>>, chains': seq<seq<Ptr>>, hash': map<Ptr, nat>, e: Ptr, h: nat) {
    chains != [] && chains' == chains[h % |chains| := [e] + chains[h % |chains|]] && e in hash' && hash'[e] == h
  }

  lemma Pushed(chains: seq<seq<Ptr>>, chains': seq<seq<Ptr>>, hash': map<Ptr, nat>, e: Ptr, h: nat)
    requires PushedOn(chains, chains', hash', e, h) && |chains| == 2 && h % 2 == 1
    ensures |chains'| == 2 && chains'[1] == [e] + chains[1] && e in hash' && hash'[e] == h
  {
  }

  lemma InsertPushes(t: Contents, e: Ptr, h: nat)
    requires t.chains != []
    ensures PushedOn(t.chains, t.Insert(e, h).chains, t.Insert(e, h).hash, e, h)
  {
  }

  lemma AddStands(hash: map<Ptr, nat>, payload: map<Ptr, string>, m: map<nat, string>, e: Ptr, h: nat, path: string)
    requires Stands(hash, payload, m) && e !in hash && h !in m
    ensures Stands(hash[e := h], payload[e := path], m[h := path])
  {
    assert hash[e := h][e] == h;
    forall h' | h' in m ensures HasEntry(hash[e := h], h') {
      var e' :| e' in hash && hash[e'] == h';
      assert hash[e := h][e'] == h';
    }
  }

  lemma BoundAnew(m: map<nat, string>, rest: map<nat, string>, h: nat, path: string)
    requires h !in rest && forall k :: k in rest ==> k in m && m[k] == rest[k]
    ensures rest[h := path] == m[h := path] <==> rest == m - {h}
  {
    if rest[h := path] == m[h := path] {
      forall k | k in m && k != h ensures k in rest {
        assert k in m[h := path];
      }
      assert rest == m - {h};
    }
  }

  // Opening or closing a handle, whatever else gets lost, leaves the map up to date.
  lemma StepUpToDate(m: map<nat, string>, m': map<nat, string>, ops: seq<HandleOp>, i: nat)
    requires i < |ops| && UpToDate(m, ops, i)
    requires match ops[i]
      case Open(h, path) => h in m' && m'[h] == path && forall k :: k in m' && k != h ==> k in m && m'[k] == m[k]
      case Close(h) => h !in m' && forall k :: k in m' ==> k in m && m'[k] == m[k]
      case Get(_) => m' == m
    ensures UpToDate(m', ops, i + 1)
  {
  }

  lemma Current(m: map<nat, string>, ops: seq<HandleOp>, i: nat, h: nat)
    requires i <= |ops| && UpToDate(m, ops, i)
    ensures h in m ==> Registered(ops, i, h) == Some(m[h])
  {
  }

  lemma CurrentIfThere(m: map<nat, string>, ops: seq<HandleOp>, i: nat, h: nat)
    requires i <= |ops| && AllThere(m, ops, i)
    ensures forall j :: 0 <= j < i && ops[j].Open? && ops[j].handle == h && Undisturbed(ops, j, i) ==>
      h in m && m[h] == ops[j].path
  {
  }

  lemma Untouched(ops: seq<HandleOp>, j: nat, i: nat)
    requires j < i <= |ops|
    requires forall k :: j < k < i ==> ops[k].Get? || (ops[k].Open? && Registered(ops, k, ops[k].handle) == None)
    ensures Undisturbed(ops, j, i)
  {
  }

  lemma NothingYet(m: map<nat, string>, ops: seq<HandleOp>)
    requires m == map[]
    ensures UpToDate(m, ops, 0) && AllThere(m, ops, 0)
  {
  }

  class HandleMap {
    var table: HashTable
    var payload: map<Ptr, string>
    ghost var paths: map<nat, string>

    ghost predicate Valid()
      reads this, table, table.buckets
    {
      table.Valid() && Stands(table.hash, payload, paths)
    }

    ghost function Repr(): set<object>
      reads this, table
    {
      {this, table, table.buckets}
    }

    /** What the map did not consist of before is new. */
    twostate predicate Grown()
      reads this, table
    {
      forall o :: o in Repr() ==> o in old(Repr()) || fresh(o)
    }

    lemma NoneRegistered()
      requires Valid() && paths == map[]
      ensures table.nrEntries == 0 && |table.chains| == table.buckets.Length
      ensures forall b :: 0 <= b < |table.chains| ==> table.chains[b] == []
    {
      assert table.hash.Keys == {};
      NothingChained(table.View());
    }

    lemma NotAtEnd(b: nat, e: Ptr, e': Ptr, handle: nat)
      requires Valid() && b < |table.chains| && table.chains[b] == [e, e'] && e in table.hash && table.hash[e] == handle
      ensures !EndsChain(table.View(), handle)
    {
      table.View().Position(b, 0);
      table.View().Position(b, 1);
    }

    constructor ()
      ensures Valid() && fresh(Repr()) && paths == map[] && table.buckets.Length == 2
    {
      hide HashTable.Valid, PRIMES;
      var t := HashTable.Create(0);
      table, payload, paths := t, map[], map[];
    }

    /** sftfs_cached_get_handled_path */
    method Get(handle: nat) returns (path: Option<string>)
      requires Valid()
      ensures path == if handle in paths then Some(paths[handle]) else None
    {
      var link := table.Lookup(handle);
      ghost var t := table.View();
      table.DerefAt(Home(handle, |table.chains|), t.Search(handle, 0));
      if table.Deref(link) != NULL {
        return Some(payload[table.Deref(link)]);
      }
      return None;
    }

    // sftfs_htable_remove_hash
    method Forget(handle: nat)
      requires Valid()
      modifies Repr()
      ensures Valid() && Repr() == old(Repr())
      ensures paths == old(paths) - Lost(old(table.View()), handle)
      ensures handle !in paths && table == old(table)
      ensures handle !in old(paths) ==> table.chains == old(table.chains) && table.nrEntries == old(table.nrEntries)
    {
      hide Contents.Valid, Stands, Lost, KeptFor, Home, Contents.Search, Gone, Contents.ChainOf, SetOf;
      ghost var t := table.View();
      RemoveStands(t, payload, paths, handle);
      LostWith(t, payload, paths, handle);
      GoneIs(t, handle);
      if handle !in paths {
        NothingLost(t, payload, paths, handle);
      }
      table.RemoveHash(handle);
      assert table.hash == t.hash - Gone(t, handle);
      payload := KeptFor(payload, table.hash);
      paths := paths - Lost(t, handle);
    }

    /** sftfs_cached_unhandle_path: others lose their entry exactly when the handle's entry is not
        the last of its chain. */
    method Unregister(handle: nat)
      requires Valid()
      modifies Repr()
      ensures Valid() && Repr() == old(Repr())
      ensures paths == old(paths) - Lost(old(table.View()), handle)
      ensures handle !in paths && (handle !in old(paths) ==> paths == old(paths))
      ensures paths == old(paths) - {handle} <==> EndsChain(old(table.View()), handle)
      ensures table == old(table) && table.buckets.Length > 0
      ensures forall h :: h in old(paths) && h !in paths ==> (h - handle) % table.buckets.Length == 0
    {
      hide Contents.Valid, Lost, Stands, EndsChain;
      table.SomeBucket();
      OnlyLost(table.View(), payload, paths, handle);
      Forget(handle);
    }

    /** sftfs_cached_handle_path */
    method Register(handle: nat, path: string)
      requires Valid()
      modifies Repr()
      ensures Valid() && Grown()
      ensures paths == (old(paths) - Lost(old(table.View()), handle))[handle := path]
      ensures handle !in old(paths) ==> paths == old(paths)[handle := path]
      ensures paths == old(paths)[handle := path] <==> EndsChain(old(table.View()), handle)
      ensures old(table.buckets.Length) > 0
      ensures handle !in old(paths) ==> table.nrEntries == old(table.nrEntries) + 1
      ensures handle !in old(paths) && 3 * old(table.buckets.Length) >= 4 * old(table.nrEntries) ==>
        exists e :: table == old(table) && PushedOn(old(table.chains), table.chains, table.hash, e, handle)
      ensures forall h :: h in old(paths) && h !in paths ==> (h - handle) % old(table.buckets.Length) == 0
      ensures table.buckets.Length >= old(table.buckets.Length) || table.buckets.Length == LAST_PRIME
    {
      hide HashTable.Valid, HashTable.RoomFor, Contents.Valid, Contents.Insert, Lost, Stands, EndsChain;
      hide PRIMES, PushedOn;
      table.SomeBucket();
      OnlyLost(table.View(), payload, paths, handle);
      ghost var m := paths;
      Forget(handle);
      ghost var rest, hash := paths, table.hash;
      var link;
      ghost var t := table.View();
      table.SomeBucket();
      table, link := HashTable.NewEntry(table, handle);
      InsertPushes(t, table.Deref(link), handle);
      AddStands(hash, payload, paths, table.Deref(link), handle, path);
      payload := payload[table.Deref(link) := path];
      paths := paths[handle := path];
      BoundAnew(m, rest, handle, path);
    }

    /** Whatever is opened, closed and looked up: a lookup finds nothing, or the path most recently
        registered for the handle and not closed since. */
    method Run(ops: seq<HandleOp>) returns (answers: seq<Option<string>>)
      requires Valid() && paths == map[]
      modifies Repr()
      ensures Valid() && |answers| == |ops|
      ensures forall i :: 0 <= i < |ops| && ops[i].Get? ==>
        answers[i] == None || answers[i] == Registered(ops, i, ops[i].handle)
      ensures forall i, j ::
        && 0 <= j < i < |ops| && ops[i].Get? && ops[j].Open? && ops[i].handle == ops[j].handle
        && (forall k :: j < k < i ==> ops[k].Get? || (ops[k].Open? && Registered(ops, k, ops[k].handle) == None))
        ==> answers[i] == Some(ops[j].path)
    {
      hide HandleMap.Valid, Lost, UpToDate, EndsChain, AllThere, Undisturbed, PushedOn;
      answers := [];
      var i := 0;
      NothingYet(paths, ops);
      while i < |ops|
        invariant 0 <= i <= |ops| && |answers| == i && Valid() && Grown()
        invariant UpToDate(paths, ops, i) && AllThere(paths, ops, i)
        invariant forall k, j {:trigger Undisturbed(ops, j, k)} ::
          && 0 <= j < k < i && ops[k].Get? && ops[j].Open? && ops[k].handle == ops[j].handle && Undisturbed(ops, j, k)
          ==> answers[k] == Some(ops[j].path)
        invariant forall k :: 0 <= k < i && ops[k].Get? ==>
          answers[k] == None || answers[k] == Registered(ops, k, ops[k].handle)
      {
        ghost var m := paths;
        var answer := None;
        match ops[i] {
          case Open(handle, path) => Register(handle, path);
          case Close(handle) => Unregister(handle);
          case Get(handle) =>
            answer := Get(handle);
            Current(m, ops, i, handle);
            CurrentIfThere(m, ops, i, handle);
        }
        StepUpToDate(m, paths, ops, i);
        StepAllThere(m, paths, ops, i);
        answers := answers + [answer];
        i := i + 1;
      }
      forall i, j |
        && 0 <= j < i < |ops| && ops[i].Get? && ops[j].Open? && ops[i].handle == ops[j].handle
        && (forall k :: j < k < i ==> ops[k].Get? || (ops[k].Open? && Registered(ops, k, ops[k].handle) == None))
        ensures answers[i] == Some(ops[j].path)
      {
        Untouched(ops, j, i);
      }
    }
  }

  /** Closing a handle takes another along that was registered before in the same bucket. */
  method ClosedTogether(first: string, second: string) returns (got: Option<string>)
    ensures got == None
  {
    hide HandleMap.Valid, Lost, EndsChain, PushedOn;
    var handles := new HandleMap();
    handles.NoneRegistered();
    ghost var none: seq<seq<Ptr>> := [[], []];
    assert handles.table.chains == none;
    handles.Register(1, first);
    ghost var e1 :| PushedOn(none, handles.table.chains, handles.table.hash, e1, 1);
    Pushed(none, handles.table.chains, handles.table.hash, e1, 1);
    ghost var one := handles.table.chains;
    handles.Register(3, second);
    ghost var e3 :| PushedOn(one, handles.table.chains, handles.table.hash, e3, 3);
    Pushed(one, handles.table.chains, handles.table.hash, e3, 3);
    handles.NotAtEnd(1, e3, e1, 3);
    handles.Unregister(3);
    got := handles.Get(1);
  }

  /** Closing a handle leaves one in another bucket registered. */
  method ClosedBeside(first: string, second: string) returns (got: Option<string>)
    ensures got == Some(first)
  {
    hide HandleMap.Valid, Lost, EndsChain;
    var handles := new HandleMap();
    handles.Register(4, first);
    handles.Register(5, second);
    handles.Unregister(5);
    got := handles.Get(4);
  }
}
