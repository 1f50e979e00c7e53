/** The cache by path of src/cache/file.c. */
module FileCaches {
  import opened Memory
  import opened Clocks
  import opened HashTables
  import opened CacheLists
  import opened CacheStates
  import opened Caches

  /** struct file_cache_entry */
  datatype File<D> = File(path: string, data: D)

  /** What a path is bound to: the data, and when it was stored. */
  datatype Binding<D> = Binding(data: D, stamp: nat)

  /** SFTFS_CACHE_FILE_OK and so on; several of the program's codes share one value. */
  datatype FileStatus = FileOk | Unexpected | PathMismatch | DoesNotExist

  /** str_eq: strncmp over the size of the stored string, both strings being free of NULs. */
  predicate StrEq(stored: string, path: string) {
    stored <= path
  }

  /** No path in use is a proper prefix of another one with the same hash. */
  ghost predicate NoPrefixCollision(paths: iset<string>, hashOf: string -> nat) {
    forall p, q :: p in paths && q in paths && p < q ==> hashOf(p) != hashOf(q)
  }

  /** The first stored path that str_eq accepts for `path`; |stored| if there is none. */
  function FirstEq(stored: seq<string>, path: string): (i: nat)
    ensures i <= |stored|
    ensures forall j :: 0 <= j < i ==> !StrEq(stored[j], path)
    ensures i < |stored| ==> StrEq(stored[i], path)
  {
    if stored == [] then 0 else if StrEq(stored[0], path) then 0 else 1 + FirstEq(stored[1..], path)
  }

  lemma FirstEqAt(stored: seq<string>, path: string, i: nat)
    requires i <= |stored| && (forall j :: 0 <= j < i ==> !StrEq(stored[j], path))
    requires i < |stored| ==> StrEq(stored[i], path)
    ensures FirstEq(stored, path) == i
  {
  }

  /** Among stored paths with the hash of the one looked up, the search finds that very path if it
      is there and nothing otherwise. */
  ghost predicate FindsExactly(stored: seq<string>, path: string) {
    var i := FirstEq(stored, path);
    if path in stored then i < |stored| && stored[i] == path else i == |stored|
  }

  /** Looking up by str_eq is exact for all paths in use, whatever is stored, exactly when no path
      collides with a prefix of itself. */
  lemma LookupExactIff(paths: iset<string>, hashOf: string -> nat)
    ensures (forall stored: seq<string>, path: string {:trigger FindsExactly(stored, path)} ::
        path in paths && (forall k :: 0 <= k < |stored| ==> stored[k] in paths && hashOf(stored[k]) == hashOf(path))
        ==> FindsExactly(stored, path))
      <==> NoPrefixCollision(paths, hashOf)
  {
    if NoPrefixCollision(paths, hashOf) {
      forall stored: seq<string>, path: string | path in paths &&
        (forall k :: 0 <= k < |stored| ==> stored[k] in paths && hashOf(stored[k]) == hashOf(path))
        ensures FindsExactly(stored, path)
      {
        var i := FirstEq(stored, path);
        if i < |stored| && stored[i] != path {
          assert false;
        }
      }
    } else {
      var p, q :| p in paths && q in paths && p < q && hashOf(p) == hashOf(q);
      assert FirstEq([p], q) == 0;
      assert !FindsExactly([p], q);
    }
  }

  /** A cache state in which every node was constructed for its own path, in the chain of that
      path's hash. */
  ghost predicate Tidy<D>(s: State<File<D>>, paths: iset<string>, hashOf: string -> nat) {
    && s.body.Keys == s.data.Keys
    && (forall n {:trigger s.body[n]} :: n in s.data ==>
          s.body[n].path in paths && s.data[n] in s.hash && s.hash[s.data[n]] == hashOf(s.body[n].path))
    && (forall m, n {:trigger s.body[m], s.body[n]} :: m in s.body && n in s.body && m != n ==>
          s.body[m].path != s.body[n].path)
  }

  /** The map from path to data and time that the listed nodes stand for. */
  ghost predicate Binds<D>(s: State<File<D>>, m: map<string, Binding<D>>)
    requires s.Valid() && s.body.Keys == s.data.Keys
  {
    && (forall n {:trigger n in s.nodes} :: n in s.nodes ==>
          s.body[n].path in m && m[s.body[n].path] == Binding(s.body[n].data, s.stamp[n]))
    && (forall p {:trigger p in m} :: p in m ==> exists n :: n in s.nodes && s.body[n].path == p)
  }

  /** The bindings that have not expired at time `t`. */
  ghost function LiveMap<D>(m: map<string, Binding<D>>, ttl: nat, t: nat): map<string, Binding<D>> {
    map p | p in m && !Expired(m[p].stamp, ttl, t) :: m[p]
  }

  lemma BindsUnique<D>(s: State<File<D>>, m: map<string, Binding<D>>, m': map<string, Binding<D>>)
    requires s.Valid() && s.body.Keys == s.data.Keys && Binds(s, m) && Binds(s, m')
    ensures m == m'
  {
  }

  lemma EvictBinds<D>(s: State<File<D>>, m: map<string, Binding<D>>, ttl: nat, t: nat, paths: iset<string>,
        hashOf: string -> nat)
    requires s.Valid() && Tidy(s, paths, hashOf) && Binds(s, m)
    ensures s.Evict(ttl, t).Valid() && Tidy(s.Evict(ttl, t), paths, hashOf)
    ensures Binds(s.Evict(ttl, t), LiveMap(m, ttl, t))
    ensures s.Settled() ==> s.Evict(ttl, t).Settled()
  {
    s.EvictValid(ttl, t);
    var after := s.Evict(ttl, t);
    s.EvictKeepsHashes(ttl, t);
    s.EvictFilters(ttl, t);
    s.EvictFrees(ttl, t);
    LiveMembers(s.nodes, s.stamp, ttl, t);
  }

  lemma TakeBinds<D>(s: State<File<D>>, m: map<string, Binding<D>>, n: Ptr, paths: iset<string>, hashOf: string -> nat)
    requires s.Valid() && Tidy(s, paths, hashOf) && Binds(s, m) && n in s.nodes
    ensures s.Take(n).Valid() && Tidy(s.Take(n), paths, hashOf)
    ensures Binds(s.Take(n), m - {s.body[n].path})
  {
    hide State.Valid, Distinct;
    s.ListedKnown();
    s.TakeValid(n);
    WithoutMembers(s.nodes, IndexOf(s.nodes, n));
  }

  lemma EnlistBinds<D>(s: State<File<D>>, m: map<string, Binding<D>>, n: Ptr, t: nat, paths: iset<string>,
        hashOf: string -> nat)
    requires s.Valid() && Tidy(s, paths, hashOf) && Binds(s, m) && n in s.serial && n !in s.nodes
    requires s.Enlist(n, t).Valid()
    ensures Tidy(s.Enlist(n, t), paths, hashOf)
    ensures Binds(s.Enlist(n, t), m[s.body[n].path := Binding(s.body[n].data, t)])
  {
    hide State.Valid, Distinct;
    s.ListedKnown();
    EnlistBindsOnly(s, m, n, t);
  }

  lemma EnlistBindsOnly<D>(s: State<File<D>>, m: map<string, Binding<D>>, n: Ptr, t: nat)
    requires s.Valid() && s.body.Keys == s.data.Keys && Binds(s, m) && n in s.data && n !in s.nodes
    requires s.Enlist(n, t).Valid()
    requires forall k :: k in s.nodes ==> k in s.body && s.body[k].path != s.body[n].path
    ensures Binds(s.Enlist(n, t), m[s.body[n].path := Binding(s.body[n].data, t)])
  {
    hide State.Valid, Distinct;
    s.ListedKnown();
    var after, p := s.Enlist(n, t), s.body[n].path;
    var m' := m[p := Binding(s.body[n].data, t)];
    assert after.nodes[|s.nodes|] == n;
    forall q | q in m' ensures exists k :: k in after.nodes && after.body[k].path == q {
      if q != p {
        var k :| k in s.nodes && s.body[k].path == q;
        assert k in after.nodes;
      } else {
        assert n in after.nodes;
      }
    }
  }

  lemma LiveTwice<D>(m: map<string, Binding<D>>, gone: set<string>, ttl: nat, t: nat, t': nat)
    requires t <= t'
    ensures LiveMap(LiveMap(m, ttl, t) - gone, ttl, t') == LiveMap(m, ttl, t') - gone
    ensures LiveMap(LiveMap(m, ttl, t), ttl, t') == LiveMap(m, ttl, t')
  {
  }

  lemma LiveIff<D>(m: map<string, Binding<D>>, ttl: nat, t: nat, path: string)
    ensures path in LiveMap(m, ttl, t) <==> path in m && t <= m[path].stamp + ttl
    ensures path in LiveMap(m, ttl, t) ==> LiveMap(m, ttl, t)[path] == m[path]
  {
  }

  lemma LiveDatum<D>(m: map<string, Binding<D>>, path: string, ttl: nat, t: nat)
    requires path in LiveMap(m, ttl, t)
    ensures path in m && LiveMap(m, ttl, t)[path] == m[path]
  {
  }

  lemma LiveSooner<D>(m: map<string, Binding<D>>, path: string, ttl: nat, t: nat)
    requires path in LiveMap(m, ttl, t)
    ensures forall t' :: 0 <= t' <= t ==> !Expired(m[path].stamp, ttl, t')
  {
  }

  lemma LiveGone<D>(m: map<string, Binding<D>>, path: string, ttl: nat, t: nat)
    ensures path !in LiveMap(m, ttl, t) ==> LiveMap(m, ttl, t) - {path} == LiveMap(m, ttl, t)
    ensures LiveMap(m, ttl, t) - {} == LiveMap(m, ttl, t)
  {
  }

  lemma LiveAbsent<D>(m: map<string, Binding<D>>, path: string, ttl: nat, t: nat)
    requires path !in LiveMap(m, ttl, t)
    ensures forall t' :: t <= t' ==> path !in LiveMap(m, ttl, t') && LiveMap(m, ttl, t') - {path} == LiveMap(m, ttl, t')
  {
  }

  // A new node, constructed for a path that no node has.
  lemma AddTidy<D>(s: State<File<D>>, n: Ptr, e: Ptr, f: File<D>, paths: iset<string>, hashOf: string -> nat)
    requires s.Valid() && Tidy(s, paths, hashOf)
    requires e !in s.hash && n == NodeOf(e) && n !in s.data && f.path in paths
    requires forall k :: k in s.body ==> s.body[k].path != f.path
    ensures Tidy(s.Add(n, e, hashOf(f.path)).SetBody(n, f), paths, hashOf)
  {
    hide State.Valid, Distinct;
    forall k | k in s.data ensures s.data[k] in s.hash && s.data[k] != e {
      s.Known(k);
    }
  }

  lemma AddBinds<D>(s: State<File<D>>, m: map<string, Binding<D>>, n: Ptr, e: Ptr, h: nat, f: File<D>)
    requires s.Valid() && s.body.Keys == s.data.Keys && Binds(s, m) && n !in s.data
    requires s.Add(n, e, h).SetBody(n, f).Valid()
    ensures var after := s.Add(n, e, h).SetBody(n, f);
      && Binds(after, m) && after.Open() == s.Open()[n := f]
      && (s.Settled() ==> after.Settled())
  {
    hide State.Valid, Distinct;
    s.ListedKnown();
    AddOpens(s, n, e, h, f);
  }

  lemma AddOpens<D>(s: State<File<D>>, n: Ptr, e: Ptr, h: nat, f: File<D>)
    requires n !in s.nodes
    ensures s.Add(n, e, h).SetBody(n, f).Open() == s.Open()[n := f]
  {
  }

  // sftfs_cache_alloc followed by construct_file.
  lemma NewFileBinds<D>(s: State<File<D>>, m: map<string, Binding<D>>, ttl: nat, t: nat, n: Ptr, e: Ptr, f: File<D>,
        paths: iset<string>, hashOf: string -> nat)
    requires s.Valid() && s.Settled() && Tidy(s, paths, hashOf) && Binds(s, m)
    requires s.Evict(ttl, t).Valid() && e !in s.Evict(ttl, t).hash && e != NULL && n == NodeOf(e)
    requires f.path in paths && forall k :: k in s.body ==> s.body[k].path != f.path
    ensures var after := s.Evict(ttl, t).Add(n, e, hashOf(f.path)).SetBody(n, f);
      && after.Valid() && after.Settled() && Tidy(after, paths, hashOf) && Binds(after, LiveMap(m, ttl, t))
      && n in after.data && n !in after.nodes && n in after.body
      && after.Open() == s.Open()[n := f] && n !in s.Open()
  {
    hide State.Valid, Distinct, Tidy, Binds;
    EvictBinds(s, m, ttl, t, paths, hashOf);
    s.EvictKeepsOpen(ttl, t);
    s.EvictFrees(ttl, t);
    s.EvictValid(ttl, t);
    var s' := s.Evict(ttl, t);
    s'.AddValid(n, e, hashOf(f.path));
    s'.Add(n, e, hashOf(f.path)).SetBodyValid(n, f);
    AddTidy(s', n, e, f, paths, hashOf);
    AddBinds(s', LiveMap(m, ttl, t), n, e, hashOf(f.path), f);
    s'.ListedKnown();
    s'.BodiesOwned();
  }

  // Making a new entry opens it and leaves the open ones open.
  lemma NewFileOpens<D>(s: State<File<D>>, ttl: nat, t: nat, n: Ptr, e: Ptr, f: File<D>, h: nat)
    requires s.Valid() && s.Evict(ttl, t).Valid() && e !in s.Evict(ttl, t).hash && e != NULL && n == NodeOf(e)
    ensures var after := s.Evict(ttl, t).Add(n, e, h).SetBody(n, f);
      && n in after.data && n !in after.nodes && n in after.body
      && after.Open() == s.Open()[n := f] && n !in s.Open()
  {
    hide State.Valid, Distinct;
    s.EvictKeepsOpen(ttl, t);
    var s' := s.Evict(ttl, t);
    s'.AddValid(n, e, h);
    s'.ListedKnown();
    s'.BodiesOwned();
    AddOpens(s', n, e, h, f);
  }

  // While an earlier take of the path is open, the new entry is a second one for it.
  lemma NewFileConflict<D>(s: State<File<D>>, ttl: nat, t: nat, n: Ptr, e: Ptr, f: File<D>, paths: iset<string>,
        hashOf: string -> nat)
    requires s.Valid() && s.Evict(ttl, t).Valid() && e !in s.Evict(ttl, t).hash && e != NULL && n == NodeOf(e)
    requires exists k :: k in s.Open() && s.Open()[k].path == f.path
    ensures !Tidy(s.Evict(ttl, t).Add(n, e, hashOf(f.path)).SetBody(n, f), paths, hashOf)
  {
    hide State.Valid, Distinct;
    NewFileOpens(s, ttl, t, n, e, f, hashOf(f.path));
    var k :| k in s.Open() && s.Open()[k].path == f.path;
    var after := s.Evict(ttl, t).Add(n, e, hashOf(f.path)).SetBody(n, f);
    assert k in after.Open() && after.Open()[k] == s.Open()[k];
    assert after.body[k].path == after.body[n].path;
  }

  // sftfs_cache_give on a taken node.
  lemma GiveBinds<D>(s: State<File<D>>, m: map<string, Binding<D>>, ttl: nat, t: nat, t': nat, n: Ptr,
        paths: iset<string>, hashOf: string -> nat)
    requires s.Valid() && s.Settled() && Tidy(s, paths, hashOf) && Binds(s, m) && n in s.Open()
    requires s.Given(n, ttl, t, t').Valid()
    ensures var after := s.Given(n, ttl, t, t');
      && Tidy(after, paths, hashOf) && after.Settled()
      && Binds(after, LiveMap(m, ttl, t)[s.Open()[n].path := Binding(s.Open()[n].data, t')])
      && after.Open() == s.Open() - {n}
  {
    hide State.Valid, Distinct, Tidy, Binds;
    s.OpenKnown(n);
    EvictBinds(s, m, ttl, t, paths, hashOf);
    s.EvictKeepsOpen(ttl, t);
    s.EvictKeepsTaken(n, ttl, t);
    var s' := s.Evict(ttl, t);
    s'.OpenKnown(n);
    EnlistBinds(s', LiveMap(m, ttl, t), n, t', paths, hashOf);
    s'.EnlistCloses(n, t');
  }

  // sftfs_cache_free on a taken node.
  lemma FreeBinds<D>(s: State<File<D>>, m: map<string, Binding<D>>, ttl: nat, t: nat, n: Ptr, paths: iset<string>,
        hashOf: string -> nat)
    requires s.Valid() && Tidy(s, paths, hashOf) && Binds(s, m) && n in s.data && n !in s.nodes
    ensures var after := s.Freed(n, ttl, t);
      && after.Valid() && Tidy(after, paths, hashOf) && Binds(after, LiveMap(m, ttl, t))
      && after.Open() == s.Open() - {n}
      && (s.serial.Keys + {n} == s.data.Keys ==> after.Settled())
  {
    hide State.Valid, Distinct, Tidy, Binds, State.Open;
    s.FreeValid(n);
    var s' := s.Free(n);
    s.ListedKnown();
    s.BodiesOwned();
    FreeTidy(s, n, paths, hashOf);
    TidyKeys(s, paths, hashOf);
    FreeBindsOnly(s, m, n);
    EvictBinds(s', m, ttl, t, paths, hashOf);
    s'.EvictKeepsOpen(ttl, t);
  }

  // sftfs_cache_invalidate on a listed node.
  lemma InvalidateBinds<D>(s: State<File<D>>, m: map<string, Binding<D>>, ttl: nat, t: nat, t': nat, n: Ptr,
        paths: iset<string>, hashOf: string -> nat)
    requires s.Valid() && s.Settled() && Tidy(s, paths, hashOf) && Binds(s, m) && n in s.nodes && n in s.body && t <= t'
    ensures var after := s.Invalidated(n, ttl, t, t');
      && after.Valid() && after.Settled() && Tidy(after, paths, hashOf)
      && Binds(after, LiveMap(m, ttl, t') - {s.body[n].path})
      && after.Open() == s.Open()
  {
    hide State.Valid, State.Open, Distinct, Tidy, Binds, LiveMap;
    s.ListedKnown();
    s.InvalidatedValid(n, ttl, t, t');
    s.InvalidatingSteps(n, ttl, t);
    TakeBinds(s, m, n, paths, hashOf);
    s.TakeOpens(n);
    var p, s1 := s.body[n].path, s.Take(n);
    s1.EvictKeepsOpen(ttl, t);
    EvictBinds(s1, m - {p}, ttl, t, paths, hashOf);
    var s2 := s1.Evict(ttl, t);
    ReportBinds(s2, LiveMap(m - {p}, ttl, t), n, paths, hashOf);
    FreeBinds(s2.Report(n), LiveMap(m - {p}, ttl, t), ttl, t', n, paths, hashOf);
    LiveThenGone(m, p, ttl, t, t');
    s.NotOpen(n, s.body[n]);
  }

  lemma ReportBinds<D>(s: State<File<D>>, m: map<string, Binding<D>>, n: Ptr, paths: iset<string>,
        hashOf: string -> nat)
    requires s.Valid() && Tidy(s, paths, hashOf) && Binds(s, m) && n in s.serial && s.serial[n] < |s.fate|
    requires s.Report(n).Valid()
    ensures Tidy(s.Report(n), paths, hashOf) && Binds(s.Report(n), m) && s.Report(n).Open() == s.Open()
  {
    hide State.Valid, Distinct;
    s.ListedKnown();
  }

  lemma LiveThenLive<D>(m: map<string, Binding<D>>, p: string, ttl: nat, t: nat, t': nat)
    requires t <= t'
    ensures LiveMap(LiveMap(m, ttl, t) - {p}, ttl, t') == LiveMap(m, ttl, t') - {p}
  {
  }

  lemma LiveThenGone<D>(m: map<string, Binding<D>>, p: string, ttl: nat, t: nat, t': nat)
    requires t <= t'
    ensures LiveMap(LiveMap(m - {p}, ttl, t), ttl, t') == LiveMap(m, ttl, t') - {p}
  {
  }

  lemma TidyKeys<D>(s: State<File<D>>, paths: iset<string>, hashOf: string -> nat)
    requires Tidy(s, paths, hashOf)
    ensures s.body.Keys == s.data.Keys
  {
  }

  lemma FreeBindsOnly<D>(s: State<File<D>>, m: map<string, Binding<D>>, n: Ptr)
    requires s.Valid() && s.body.Keys == s.data.Keys && Binds(s, m) && s.Freeable(n) && n !in s.nodes
    requires s.Free(n).Valid()
    ensures Binds(s.Free(n), m) && s.Free(n).Open() == s.Open() - {n}
  {
    hide State.Valid, Distinct;
    s.ListedKnown();
  }

  lemma FreeTidy<D>(s: State<File<D>>, n: Ptr, paths: iset<string>, hashOf: string -> nat)
    requires s.Valid() && Tidy(s, paths, hashOf) && s.Freeable(n)
    ensures Tidy(s.Free(n), paths, hashOf)
  {
    hide State.Valid;
    forall k | k in s.data && k != n ensures s.data[k] != s.data[n] {
      s.NodesApart(k, n);
    }
  }

  lemma SetDataBinds<D>(s: State<File<D>>, m: map<string, Binding<D>>, n: Ptr, f: File<D>, paths: iset<string>,
        hashOf: string -> nat)
    requires s.Valid() && Tidy(s, paths, hashOf) && Binds(s, m) && n in s.Open() && f.path == s.Open()[n].path
    requires s.SetBody(n, f).Valid()
    ensures Tidy(s.SetBody(n, f), paths, hashOf) && Binds(s.SetBody(n, f), m)
    ensures s.SetBody(n, f).Open() == s.Open()[n := f]
  {
    hide State.Valid, Tidy, Binds, State.Open;
    s.OpenKnown(n);
    SetDataTidy(s, n, f, paths, hashOf);
    TidyKeys(s, paths, hashOf);
    SetDataOnly(s, m, n, f);
  }

  lemma SetDataTidy<D>(s: State<File<D>>, n: Ptr, f: File<D>, paths: iset<string>, hashOf: string -> nat)
    requires Tidy(s, paths, hashOf) && n in s.body && f.path == s.body[n].path
    ensures Tidy(s.SetBody(n, f), paths, hashOf)
  {
  }

  lemma SetDataOnly<D>(s: State<File<D>>, m: map<string, Binding<D>>, n: Ptr, f: File<D>)
    requires s.Valid() && s.body.Keys == s.data.Keys && Binds(s, m) && n in s.body && n !in s.nodes
    requires s.SetBody(n, f).Valid()
    ensures Binds(s.SetBody(n, f), m) && s.SetBody(n, f).Open() == s.Open()[n := f]
  {
    hide State.Valid;
    s.ListedKnown();
  }

  // A taken node becomes the listed entry of another path: what comes out is in order exactly when
  // that path was not bound already.
  lemma MoveBinds<D>(s: State<File<D>>, m: map<string, Binding<D>>, n: Ptr, newpath: string, t: nat,
        paths: iset<string>, hashOf: string -> nat)
    requires s.Valid() && s.Settled() && Tidy(s, paths, hashOf) && Binds(s, m) && n in s.Open() && newpath in paths
    requires forall k :: k in s.Open() && k != n ==> s.Open()[k].path != newpath
    requires s.Moved(n, File(newpath, s.Open()[n].data), hashOf(newpath)).Enlist(n, t).Valid()
    ensures var after := s.Moved(n, File(newpath, s.Open()[n].data), hashOf(newpath)).Enlist(n, t);
      && (Tidy(after, paths, hashOf) <==> newpath !in m)
      && after.body.Keys == after.data.Keys && after.Settled()
      && (newpath !in m ==> Binds(after, m[newpath := Binding(s.Open()[n].data, t)]))
  {
    hide State.Valid, Distinct, Tidy, Binds, State.Open;
    s.OpenKnown(n);
    TidyKeys(s, paths, hashOf);
    var f := File(newpath, s.Open()[n].data);
    var moved := s.Moved(n, f, hashOf(newpath));
    MovedTidiness(moved, n, t, paths, hashOf);
    if newpath in m {
      MoveConflict(s, m, n, f, paths, hashOf);
    } else {
      MoveTidy(s, m, n, f, paths, hashOf);
      MoveBindsOnly(s, m, n, f, hashOf(newpath), t);
    }
  }

  // A taken node becomes another path's and is then given.
  lemma MoveThenGive<D>(s: State<File<D>>, m: map<string, Binding<D>>, n: Ptr, newpath: string, ttl: nat, t: nat,
        t': nat, paths: iset<string>, hashOf: string -> nat)
    requires s.Valid() && s.Settled() && Tidy(s, paths, hashOf) && Binds(s, m) && n in s.Open() && newpath in paths
    requires forall k :: k in s.Open() && k != n ==> s.Open()[k].path != newpath
    requires s.Moved(n, File(newpath, s.Open()[n].data), hashOf(newpath)).Valid()
    requires s.Moved(n, File(newpath, s.Open()[n].data), hashOf(newpath)).Given(n, ttl, t, t').Valid()
    ensures var after, live := s.Moved(n, File(newpath, s.Open()[n].data), hashOf(newpath)).Given(n, ttl, t, t'),
        LiveMap(m, ttl, t);
      && (Tidy(after, paths, hashOf) <==> newpath !in live)
      && after.body.Keys == after.data.Keys && after.Settled()
      && (newpath !in live ==> Binds(after, live[newpath := Binding(s.Open()[n].data, t')]))
  {
    hide State.Valid, State.Open, Binds, Tidy, LiveMap;
    s.OpenKnown(n);
    s.MoveThenEvict(n, File(newpath, s.Open()[n].data), hashOf(newpath), ttl, t);
    EvictBinds(s, m, ttl, t, paths, hashOf);
    s.EvictKeepsOpen(ttl, t);
    s.EvictKeepsTaken(n, ttl, t);
    MoveBinds(s.Evict(ttl, t), LiveMap(m, ttl, t), n, newpath, t', paths, hashOf);
  }

  // Being in order does not depend on which nodes are listed.
  lemma MovedTidiness<D>(s: State<File<D>>, n: Ptr, t: nat, paths: iset<string>, hashOf: string -> nat)
    ensures Tidy(s.Enlist(n, t), paths, hashOf) <==> Tidy(s, paths, hashOf)
  {
  }

  lemma MoveConflict<D>(s: State<File<D>>, m: map<string, Binding<D>>, n: Ptr, f: File<D>, paths: iset<string>,
        hashOf: string -> nat)
    requires s.Valid() && s.body.Keys == s.data.Keys && Binds(s, m) && n in s.data && n !in s.nodes && f.path in m
    ensures !Tidy(s.Moved(n, f, hashOf(f.path)), paths, hashOf)
  {
    hide State.Valid, Distinct;
    s.ListedKnown();
    var moved := s.Moved(n, f, hashOf(f.path));
    var k :| k in s.nodes && s.body[k].path == f.path;
    assert moved.body[k].path == moved.body[n].path;
  }

  lemma MoveTidy<D>(s: State<File<D>>, m: map<string, Binding<D>>, n: Ptr, f: File<D>, paths: iset<string>,
        hashOf: string -> nat)
    requires s.Valid() && Tidy(s, paths, hashOf) && Binds(s, m) && n in s.data && f.path in paths && f.path !in m
    requires forall k :: k in s.Open() && k != n ==> s.Open()[k].path != f.path
    ensures Tidy(s.Moved(n, f, hashOf(f.path)), paths, hashOf)
  {
    hide State.Valid, Distinct;
    var moved := s.Moved(n, f, hashOf(f.path));
    forall k | k in s.body && k != n ensures s.body[k].path != f.path {
      if k !in s.nodes {
        assert k in s.Open();
      }
    }
    forall k | k in s.data && k != n ensures s.data[k] != s.data[n] {
      s.NodesApart(k, n);
    }
  }

  lemma MoveBindsOnly<D>(s: State<File<D>>, m: map<string, Binding<D>>, n: Ptr, f: File<D>, h: nat, t: nat)
    requires s.Valid() && s.body.Keys == s.data.Keys && Binds(s, m) && n in s.data && n !in s.nodes && f.path !in m
    requires s.Moved(n, f, h).Enlist(n, t).Valid()
    ensures Binds(s.Moved(n, f, h).Enlist(n, t), m[f.path := Binding(f.data, t)])
  {
    hide State.Valid, Distinct;
    s.ListedKnown();
    s.MovedValid(n, f, h);
    var moved := s.Moved(n, f, h);
    assert Binds(moved, m);
    EnlistBindsOnly(moved, m, n, t);
  }

  class FileCache<D(0)> {
    const cache: Cache<File<D>>
    // fnv1a_hash
    const hashOf: string -> nat
    ghost const paths: iset<string>
    ghost var bindings: map<string, Binding<D>>

    ghost predicate Valid()
      reads this, cache, cache.table, cache.table.buckets, cache.list, cache.list.clock
    {
      && cache.Valid() && cache.View().Settled()
      && Tidy(cache.View(), paths, hashOf)
      && Binds(cache.View(), bindings)
      && NoPrefixCollision(paths, hashOf)
    }

    ghost function Repr(): set<object>
      reads this, cache
    {
      {this, cache, cache.table, cache.table.buckets, cache.list, cache.list.clock}
    }

    ghost function Ttl(): nat {
      cache.list.ttl
    }

    ghost function Now(): nat
      reads cache.list.clock
    {
      cache.list.clock.now
    }

    /** How often its clock was read. */
    ghost function Count(): nat
      reads cache.list.clock
    {
      cache.list.clock.count
    }

    /** What its clock will show when it is read next. */
    ghost function Next(): nat
      reads cache.list.clock
    {
      cache.list.clock.reading(Count())
    }

    /** Its clock was read any number of times. */
    twostate predicate Aged()
      reads cache.list.clock
    {
      cache.list.clock.Ran()
    }

    /** Its clock was not read. */
    twostate predicate Still()
      reads cache.list.clock
    {
      Count() == old(Count()) && Now() == old(Now())
    }

    /** Every entry of this path is listed: no take of it is still to be closed. */
    ghost predicate Closed(path: string)
      reads cache, cache.table, cache.list
    {
      forall n :: n in cache.View().Open() ==> cache.View().Open()[n].path != path
    }

    /** sftfs_cache_file_construct */
    constructor (clock: Clock, ttl: nat, hashOf: string -> nat, ghost paths: iset<string>)
      requires clock.Valid() && clock.horizon + ttl < TIME_LIMIT && NoPrefixCollision(paths, hashOf)
      ensures Valid() && fresh(Repr() - {clock}) && bindings == map[] && cache.View().Open() == map[]
      ensures cache.list.clock == clock && cache.list.ttl == ttl && this.paths == paths && this.hashOf == hashOf
    {
      hide HashTable.Valid, CacheList.Valid, State.Valid, NoPrefixCollision;
      // No node of another cache is ever handed to this one.
      cache := new Cache(clock, ttl, n => Entry(0, 0));
      this.hashOf, this.paths := hashOf, paths;
      bindings := map[];
    }

    /** Every listed node was constructed. */
    ghost predicate Constructed()
      reads cache, cache.list
    {
      forall n :: n in cache.list.nodes ==> n in cache.body
    }

    /** No match for hash `h` before position `k` has a path that str_eq accepts. */
    ghost predicate NoneEqual(h: nat, path: string, k: nat)
      requires cache.table.Valid() && Constructed()
      reads cache, cache.table, cache.table.buckets, cache.list
    {
      forall i: nat :: i < k && cache.Match(h, i) ==>
        !StrEq(cache.body[NodeOf(cache.ChainOf(h)[i])].path, path)
    }

    /** The paths of these nodes. */
    ghost function PathsOf(ns: seq<Ptr>): (r: seq<string>)
      reads cache
      ensures |r| == |ns| && forall i :: 0 <= i < |ns| && ns[i] in cache.body ==> r[i] == cache.body[ns[i]].path
    {
      var body := cache.body;
      seq(|ns|, i requires 0 <= i < |ns| => if ns[i] in body then body[ns[i]].path else "")
    }

    /** The first of the listed entries with hash `h` that str_eq accepts; NULL if there is none. */
    ghost function FirstMatch(h: nat, path: string): Ptr
      requires cache.table.Valid()
      reads cache, cache.table, cache.table.buckets, cache.list
    {
      var ns := cache.Matches(h, |cache.ChainOf(h)|);
      Nth(ns, FirstEq(PathsOf(ns), path))
    }

    /** The loop of find_entry, from the first match on. */
    method FindFrom(h: nat, path: string, first: Ptr, ghost firstJ: nat) returns (node: Ptr)
      requires cache.Valid() && Constructed() && cache.NextMatch(h, 0, first, firstJ)
      ensures node != NULL ==> node in cache.list.nodes && StrEq(cache.body[node].path, path)
      ensures node != NULL ==>
        node in cache.data && cache.data[node] in cache.table.hash && cache.table.hash[cache.data[node]] == h
      ensures node == NULL ==> NoneEqual(h, path, |cache.ChainOf(h)|)
      ensures node == FirstMatch(h, path)
    {
      hide HashTable.Valid, CacheList.Valid, State.Valid, FileCache.FirstMatch;
      node := first;
      ghost var j, k := firstJ, 0;
      Step(h, path, k, node, j);
      while node != NULL && !StrEq(cache.body[node].path, path)
        invariant cache.NextMatch(h, k, node, j) && k <= |cache.ChainOf(h)| && NoneEqual(h, path, k)
        invariant node != NULL ==> node in cache.list.nodes
        decreases |cache.ChainOf(h)| - k
      {
        Step(h, path, k, node, j);
        k := j + 1;
        node, j := cache.PeekNext(node, j);
        Step(h, path, k, node, j);
      }
      Step(h, path, k, node, j);
      FirstFound(h, path, k, node, j);
    }

    // The loop ends at the first accepted match.
    lemma FirstFound(h: nat, path: string, k: nat, node: Ptr, j: nat)
      requires cache.Valid() && Constructed() && cache.NextMatch(h, k, node, j) && k <= |cache.ChainOf(h)|
      requires NoneEqual(h, path, k) && (node != NULL ==> node in cache.body && StrEq(cache.body[node].path, path))
      ensures node == FirstMatch(h, path)
    {
      hide HashTable.Valid, CacheList.Valid, State.Valid;
      var n := |cache.ChainOf(h)|;
      var before, all := cache.Matches(h, k), cache.Matches(h, n);
      cache.MatchesUpTo(h, k);
      cache.OneMoreMatch(h, k, node, j);
      cache.MatchesPrefix(h, k, n);
      forall i | 0 <= i < |before| ensures !StrEq(PathsOf(all)[i], path) {
        assert before[i] in before && all[i] == before[i];
        var l: nat :| l < k && cache.Match(h, l) && before[i] == NodeOf(cache.ChainOf(h)[l]);
      }
      if node != NULL {
        cache.MatchesPrefix(h, j + 1, n);
        assert all[|before|] == node;
        FirstEqAt(PathsOf(all), path, |before|);
      } else {
        FirstEqAt(PathsOf(all), path, |all|);
      }
    }

    lemma Step(h: nat, path: string, k: nat, node: Ptr, j: nat)
      requires cache.Valid() && Constructed() && cache.NextMatch(h, k, node, j) && k <= |cache.ChainOf(h)|
      requires NoneEqual(h, path, k)
      ensures node != NULL ==> node in cache.list.nodes
      ensures node != NULL ==> k <= j < |cache.ChainOf(h)| && cache.Match(h, j) && node == NodeOf(cache.ChainOf(h)[j])
      ensures node != NULL ==>
        node in cache.data && cache.data[node] in cache.table.hash && cache.table.hash[cache.data[node]] == h
      ensures node != NULL && !StrEq(cache.body[node].path, path) ==> NoneEqual(h, path, j + 1)
      ensures node == NULL ==> NoneEqual(h, path, |cache.ChainOf(h)|)
    {
      hide HashTable.Valid, CacheList.Valid, State.Valid;
      if j < |cache.ChainOf(h)| {
        cache.EntryHasNode(cache.ChainOf(h)[j]);
      }
    }

    /** What the search takes for the path: same hash, and str_eq. */
    ghost predicate Accepts(stored: string, path: string) {
      hashOf(stored) == hashOf(path) && StrEq(stored, path)
    }

    /** find_entry, after what has expired is gone: an entry that it accepts, and the entry of exactly
        this path if it is in use. */
    ghost predicate IsEntryOf(node: Ptr, path: string)
      requires Constructed()
      reads this, cache, cache.list
    {
      && (node == NULL ==> forall n :: n in cache.list.nodes ==> !Accepts(cache.body[n].path, path))
      && (node != NULL ==> node in cache.list.nodes && Accepts(cache.body[node].path, path))
      && (node != NULL && path in paths ==> cache.body[node].path == path)
    }

    lemma NodesConstructed()
      requires cache.Valid() && Tidy(cache.View(), paths, hashOf)
      ensures Constructed()
    {
      hide HashTable.Valid, CacheList.Valid, State.Accounted, Sorted, Distinct;
    }

    // What the search found is what find_entry promises.
    lemma Found(path: string, node: Ptr)
      requires cache.Valid() && Tidy(cache.View(), paths, hashOf) && NoPrefixCollision(paths, hashOf) && Constructed()
      requires node != NULL ==> node in cache.list.nodes && StrEq(cache.body[node].path, path)
      requires node != NULL ==> node in cache.data && cache.data[node] in cache.table.hash
      requires node != NULL ==> cache.table.hash[cache.data[node]] == hashOf(path)
      requires node == NULL ==> NoneEqual(hashOf(path), path, |cache.ChainOf(hashOf(path))|)
      ensures IsEntryOf(node, path)
    {
      hide HashTable.Valid, CacheList.Valid, State.Valid;
      if node == NULL {
        forall n | n in cache.list.nodes ensures !Accepts(cache.body[n].path, path) {
          if Accepts(cache.body[n].path, path) {
            assert cache.body[n].path in paths;
            var i := cache.MatchOf(n);
          }
        }
      } else {
        assert cache.body[node].path in paths;
      }
    }

    /** find_entry: the first of the entries left that it accepts, in order or not. */
    method Search(path: string) returns (node: Ptr)
      requires cache.Valid() && Constructed()
      modifies Repr()
      ensures cache.Valid() && cache.table == old(cache.table) && Aged() && bindings == old(bindings)
      ensures cache.View() == old(cache.View()).Evict(Ttl(), Now()) && cache.table.FrontsKept()
      ensures Constructed() && node == FirstMatch(hashOf(path), path)
      ensures node != NULL || old(cache.list.nodes) != [] ==> Count() > old(Count())
      ensures node != NULL ==> node in cache.list.nodes && StrEq(cache.body[node].path, path)
      ensures node != NULL ==> node in cache.data && cache.data[node] in cache.table.hash
      ensures node != NULL ==> cache.table.hash[cache.data[node]] == hashOf(path)
      ensures node == NULL ==> NoneEqual(hashOf(path), path, |cache.ChainOf(hashOf(path))|)
    {
      hide HashTable.Valid, CacheList.Valid, State.Valid, FileCache.FirstMatch, FileCache.NoneEqual, State.Evict;
      hide HashTable.FrontsKept, Caches.Cache.NextMatch, Contents.ChainOf, StrEq;
      var h := hashOf(path);
      ghost var s, j: nat := cache.View(), 0;
      node, j := cache.Peek(h);
      StillConstructed(s);
      NothingYet(h, path);
      node := FindFrom(h, path, node, j);
    }

    lemma StillConstructed(s: State<File<D>>)
      requires s.Valid() && (forall n :: n in s.nodes ==> n in s.body) && cache.View() == s.Evict(Ttl(), Now())
      ensures Constructed()
    {
      hide State.Valid;
      s.EvictFilters(Ttl(), Now());
      s.EvictFrees(Ttl(), Now());
      LiveMembers(s.nodes, s.stamp, Ttl(), Now());
    }

    /** find_entry on a cache in order. */
    method FindEntry(path: string) returns (node: Ptr)
      requires Valid()
      modifies Repr()
      ensures Valid() && cache.table == old(cache.table) && Aged()
      ensures cache.View() == old(cache.View()).Evict(Ttl(), Now())
      ensures bindings == LiveMap(old(bindings), Ttl(), Now())
      ensures Constructed() && IsEntryOf(node, path) && node == FirstMatch(hashOf(path), path)
      ensures node != NULL || old(bindings) != map[] ==> Count() > old(Count())
      ensures cache.View().Open() == old(cache.View().Open())
    {
      hide HashTable.Valid, CacheList.Valid, State.Valid, Binds, Tidy, NoPrefixCollision, FileCache.FirstMatch;
      hide FileCache.Constructed, FileCache.NoneEqual, FileCache.IsEntryOf, HashTable.FrontsKept;
      ghost var s := cache.View();
      NodesConstructed();
      BoundNodes();
      node := Search(path);
      s.EvictValid(Ttl(), Now());
      EvictBinds(s, bindings, Ttl(), Now(), paths, hashOf);
      s.EvictKeepsOpen(Ttl(), Now());
      bindings := LiveMap(bindings, Ttl(), Now());
      Found(path, node);
    }

    lemma NothingYet(h: nat, path: string)
      requires cache.table.Valid() && Constructed()
      ensures NoneEqual(h, path, 0)
    {
    }

    // What an entry found for any path says about the bindings.
    lemma EntryAccepted(node: Ptr, path: string)
      requires Valid() && Constructed() && IsEntryOf(node, path)
      ensures node == NULL ==> forall p :: p in bindings ==> !Accepts(p, path)
      ensures node != NULL ==> node in cache.body && cache.body[node].path in bindings
      ensures node != NULL ==> bindings[cache.body[node].path].data == cache.body[node].data
    {
      hide HashTable.Valid, CacheList.Valid, State.Accounted, Sorted, Distinct;
    }

    // What an entry found for a path in use says about the bindings.
    lemma EntryBinds(node: Ptr, path: string)
      requires Valid() && Constructed() && IsEntryOf(node, path) && path in paths
      ensures node == NULL <==> path !in bindings
      ensures node != NULL ==> node in cache.list.nodes && node in cache.body && cache.body[node].path == path
      ensures node != NULL ==> node in cache.list.modTime && node !in cache.View().Open()
      ensures node != NULL ==> bindings[path] == Binding(cache.body[node].data, cache.list.modTime[node])
    {
      hide HashTable.Valid, CacheList.Valid, State.Accounted, Sorted, Distinct;
    }

    /** No binding is from the future. */
    lemma BoundInThePast()
      requires Valid()
      ensures forall p :: p in bindings ==> bindings[p].stamp <= Now()
    {
      hide HashTable.Valid, State.Valid, Distinct, Sorted, Tidy, NoPrefixCollision;
      cache.list.StampsPast();
    }

    // What the clock shows, and what it was to show next when it had been read `k` times.
    lemma ClockShows(k: nat)
      requires Valid()
      ensures Now() == cache.list.clock.LastBefore(Count())
      ensures k < Count() ==> cache.list.clock.reading(k) <= Now()
      ensures k <= Count() ==> cache.list.clock.reading(k) <= Next()
    {
      hide HashTable.Valid, State.Valid, Listing.Valid, Tidy, Binds, NoPrefixCollision;
    }

    lemma BoundNodes()
      requires Valid()
      ensures bindings != map[] ==> cache.list.nodes != []
    {
      hide HashTable.Valid, CacheList.Valid, State.Accounted, Sorted, Distinct, NoPrefixCollision, Tidy;
      if bindings != map[] {
        var p :| p in bindings;
      }
    }

    /** Only paths in use are bound. */
    lemma BoundInUse()
      requires Valid()
      ensures forall p :: p in bindings ==> p in paths
    {
      hide HashTable.Valid, CacheList.Valid, State.Accounted, Sorted, Distinct, NoPrefixCollision;
    }

    /** sftfs_cache_peek_file: for any path, the data bound to one that the search accepts, and nothing
        only if there is none; for a path in use, what that very path is bound to. */
    method PeekFile(path: string) returns (r: Option<D>)
      requires Valid()
      modifies Repr()
      ensures Valid() && Repr() == old(Repr()) && Aged()
      ensures cache.View().Open() == old(cache.View().Open())
      ensures bindings == LiveMap(old(bindings), Ttl(), Now())
      ensures r.Some? || old(bindings) != map[] ==> Count() > old(Count())
      ensures path in paths ==> r == if path in bindings then Some(bindings[path].data) else None
      ensures path in bindings <==> path in old(bindings) && Now() <= old(bindings)[path].stamp + Ttl()
      ensures path in bindings ==> bindings[path] == old(bindings)[path]
      ensures r.None? ==> forall p :: p in bindings ==> !Accepts(p, path)
      ensures r.Some? ==> exists p :: p in bindings && Accepts(p, path) && r.value == bindings[p].data
    {
      hide HashTable.Valid, CacheList.Valid, State.Valid, Binds, Tidy, NoPrefixCollision, FileCache.Accepts;
      var node := FindEntry(path);
      EntryAccepted(node, path);
      if path in paths {
        EntryBinds(node, path);
      }
      LiveIff(old(bindings), Ttl(), Now(), path);
      if node == NULL {
        return None;
      }
      return Some(cache.body[node].data);
    }

    // sftfs_cache_take on the listed entry of a path.
    method TakeEntry(node: Ptr) returns (taken: Ptr)
      requires Valid() && node in cache.list.nodes && node in cache.body
      modifies Repr()
      ensures Valid() && Repr() == old(Repr()) && Aged() && taken == node
      ensures bindings == LiveMap(old(bindings) - {old(cache.body)[node].path}, Ttl(), Now())
      ensures cache.View().Open() == old(cache.View().Open())[node := old(cache.body)[node]]
      ensures node in cache.body && cache.body[node] == old(cache.body)[node]
    {
      hide HashTable.Valid, CacheList.Valid, State.Valid, Binds, Tidy, NoPrefixCollision;
      ghost var s, p := cache.View(), cache.body[node].path;
      s.ListedKnown();
      cache.OwnReadable(node);
      taken := cache.Take(node);
      TakeBinds(s, bindings, node, paths, hashOf);
      s.TakeValid(node);
      s.TakeOpens(node);
      ghost var s' := s.Take(node);
      EvictBinds(s', bindings - {p}, Ttl(), Now(), paths, hashOf);
      s'.EvictKeepsOpen(Ttl(), Now());
      s'.EvictValid(Ttl(), Now());
      cache.View().OpenKnown(node);
      bindings := LiveMap(bindings - {p}, Ttl(), Now());
    }

    // sftfs_cache_alloc and construct_file, for a path that no listed entry has: in order exactly if
    // no taken entry has it either.
    method NewFile(path: string) returns (node: Ptr)
      requires Valid() && path in paths && path !in bindings
      modifies Repr()
      ensures cache.Valid() && fresh(Repr() - old(Repr())) && Aged()
      ensures Tidy(cache.View(), paths, hashOf) <==> old(Closed(path))
      ensures old(Closed(path)) ==> Valid() && bindings == LiveMap(old(bindings), Ttl(), Now())
      ensures node in cache.data && node !in cache.list.nodes && node in cache.body && cache.body[node].path == path
      ensures node !in old(cache.View().Open())
      ensures cache.View().Open() == old(cache.View().Open())[node := cache.body[node]]
    {
      hide HashTable.Valid, CacheList.Valid, State.Valid, Binds, Tidy, NoPrefixCollision;
      ghost var s, entry, closed := cache.View(), 0, Closed(path);
      if closed {
        PathUnused(path);
      }
      node, entry := cache.Alloc(hashOf(path));
      var d: D := *;
      cache.SetBody(node, File(path, d));
      s.EvictValid(Ttl(), Now());
      NewFileOpens(s, Ttl(), Now(), node, entry, File(path, d), hashOf(path));
      if closed {
        NewFileBinds(s, bindings, Ttl(), Now(), node, entry, File(path, d), paths, hashOf);
      } else {
        NewFileConflict(s, Ttl(), Now(), node, entry, File(path, d), paths, hashOf);
      }
      bindings := LiveMap(bindings, Ttl(), Now());
    }

    lemma PathUnused(path: string)
      requires Valid() && Closed(path) && path !in bindings
      ensures forall n :: n in cache.body ==> cache.body[n].path != path
    {
      hide HashTable.Valid, CacheList.Valid, State.Accounted, Sorted, Distinct, Tidy;
      forall n | n in cache.body ensures cache.body[n].path != path {
        if n !in cache.list.nodes {
          assert n in cache.View().Open();
        }
      }
    }

    /** sftfs_cache_take_file: the path's binding is hidden, or a new entry made exactly if there is none.
        While an earlier take of the path is open there is none, and the new entry is a second one. */
    method TakeFile(path: string) returns (node: Ptr, isNew: bool, ghost t: nat)
      requires Valid() && path in paths
      modifies Repr()
      ensures cache.Valid() && fresh(Repr() - old(Repr())) && Aged() && old(Now()) <= t <= Now()
      ensures Tidy(cache.View(), paths, hashOf) <==> old(Closed(path))
      ensures old(Closed(path)) ==> Valid() && bindings == LiveMap(old(bindings), Ttl(), Now()) - {path}
      ensures node !in old(cache.View().Open()) && node in cache.body && cache.body[node].path == path
      ensures cache.View().Open() == old(cache.View().Open())[node := cache.body[node]]
      ensures isNew <==> path !in LiveMap(old(bindings), Ttl(), t)
      ensures !isNew ==> old(Closed(path)) && cache.body[node].data == old(bindings)[path].data
    {
      hide Cache.Valid, State.Valid, State.Open, Binds, Tidy, NoPrefixCollision, LiveMap, FileCache.IsEntryOf;
      ghost var m, closed := bindings, Closed(path);
      var found := FindEntry(path);
      t := Now();
      EntryBinds(found, path);
      isNew := found == NULL;
      if found != NULL {
        LiveDatum(m, path, Ttl(), t);
        BoundClosed(path);
        node := TakeEntry(found);
        LiveTwice(m, {path}, Ttl(), t, Now());
      } else {
        LiveAbsent(m, path, Ttl(), t);
        node := NewFile(path);
        LiveTwice(m, {}, Ttl(), t, Now());
      }
    }

    // No take of a path is open while it is bound.
    lemma BoundClosed(path: string)
      requires Valid() && path in bindings
      ensures Closed(path) && Tidy(cache.View(), paths, hashOf)
    {
      hide HashTable.Valid, CacheList.Valid, State.Accounted, Sorted, Distinct;
    }

    /** Writing the data of a taken file through the pointer that sftfs_cache_take_file returned. */
    method SetData(node: Ptr, data: D)
      requires Valid() && node in cache.View().Open()
      modifies cache`body
      ensures Valid() && Repr() == old(Repr()) && node in old(cache.View().Open())
      ensures cache.View().Open() == old(cache.View().Open())[node := old(cache.View().Open())[node].(data := data)]
    {
      hide HashTable.Valid, CacheList.Valid, State.Valid, Binds, Tidy, NoPrefixCollision, State.Open;
      ghost var s := cache.View();
      s.OpenKnown(node);
      var f := cache.body[node].(data := data);
      cache.SetBody(node, f);
      SetDataBinds(s, bindings, node, f, paths, hashOf);
    }

    /** sftfs_cache_give_file on a taken file. */
    method GiveFile(path: string, node: Ptr) returns (status: FileStatus, ghost t: nat)
      requires Valid() && node in cache.View().Open()
      modifies Repr()
      ensures Valid() && Repr() == old(Repr()) && Aged() && old(Now()) <= t <= Now()
      ensures status == FileOk ==> Count() > old(Count())
      ensures var f := old(cache.View().Open()[node]);
        if StrEq(f.path, path) then
          && status == FileOk && cache.View().Open() == old(cache.View().Open()) - {node}
          && bindings == LiveMap(old(bindings), Ttl(), t)[f.path := Binding(f.data, Now())]
        else
          && status == PathMismatch && cache.View().Open() == old(cache.View().Open())
          && bindings == old(bindings)
    {
      hide HashTable.Valid, CacheList.Valid, State.Valid, Binds, Tidy, NoPrefixCollision, State.Open;
      ghost var s := cache.View();
      s.OpenKnown(node);
      if !StrEq(cache.body[node].path, path) {
        return PathMismatch, Now();
      }
      cache.OwnReadable(node);
      var st;
      st, t := cache.Give(node);
      GiveBinds(s, bindings, Ttl(), t, Now(), node, paths, hashOf);
      bindings := LiveMap(bindings, Ttl(), t)[s.Open()[node].path := Binding(s.Open()[node].data, Now())];
      status := FileOk;
    }

    /** sftfs_cache_drop_file on a taken file. */
    method DropFile(path: string, node: Ptr) returns (status: FileStatus)
      requires Valid() && node in cache.View().Open()
      modifies Repr()
      ensures Valid() && Repr() == old(Repr()) && Aged()
      ensures if StrEq(old(cache.View().Open()[node]).path, path) then
          && status == FileOk && cache.View().Open() == old(cache.View().Open()) - {node}
          && bindings == LiveMap(old(bindings), Ttl(), Now())
        else
          && status == PathMismatch && cache.View().Open() == old(cache.View().Open())
          && bindings == old(bindings)
    {
      hide HashTable.Valid, CacheList.Valid, State.Valid, Binds, Tidy, NoPrefixCollision, State.Open;
      ghost var s := cache.View();
      s.OpenKnown(node);
      if !StrEq(cache.body[node].path, path) {
        return PathMismatch;
      }
      cache.OwnReadable(node);
      var st := cache.Free(node);
      FreeBinds(s, bindings, Ttl(), Now(), node, paths, hashOf);
      bindings := LiveMap(bindings, Ttl(), Now());
      status := FileOk;
    }

    // sftfs_cache_invalidate on the listed entry of a path.
    method InvalidateEntry(node: Ptr)
      requires Valid() && node in cache.list.nodes && node in cache.body
      modifies Repr()
      ensures Valid() && Repr() == old(Repr()) && Aged()
      ensures bindings == LiveMap(old(bindings), Ttl(), Now()) - {old(cache.body)[node].path}
      ensures cache.View().Open() == old(cache.View().Open())
    {
      hide HashTable.Valid, CacheList.Valid, State.Valid, Binds, Tidy, NoPrefixCollision, State.Open, LiveMap;
      ghost var s, t := cache.View(), 0;
      s.ListedKnown();
      cache.OwnReadable(node);
      var status;
      status, t := cache.Invalidate(node);
      InvalidateBinds(s, bindings, Ttl(), t, Now(), node, paths, hashOf);
      bindings := LiveMap(bindings, Ttl(), Now()) - {s.body[node].path};
    }

    /** sftfs_cache_invalidate_file: whatever the path, what goes is what str_eq takes for it. */
    method InvalidateFile(path: string) returns (status: FileStatus, ghost gone: set<string>)
      requires Valid()
      modifies Repr()
      ensures Valid() && Repr() == old(Repr()) && Aged()
      ensures status == FileOk && cache.View().Open() == old(cache.View().Open())
      ensures bindings == LiveMap(old(bindings), Ttl(), Now()) - gone
      ensures |gone| <= 1 && forall p :: p in gone ==> StrEq(p, path)
      ensures path in paths ==> gone == {path}
    {
      hide Cache.Valid, State.Valid, State.Open, Binds, Tidy, NoPrefixCollision, LiveMap;
      ghost var m := bindings;
      var node := FindEntry(path);
      ghost var t := Now();
      gone := {};
      if path in paths {
        EntryBinds(node, path);
        gone := {path};
      }
      LiveGone(m, path, Ttl(), t);
      if node != NULL {
        gone := {cache.body[node].path};
        LiveTwice(m, gone, Ttl(), t, t);
        InvalidateEntry(node);
        LiveTwice(m, gone, Ttl(), t, Now());
      }
      status := FileOk;
    }

    // The rest of sftfs_cache_rename_file, once the entry is taken.
    method GiveAs(node: Ptr, newpath: string) returns (status: Status, ghost t: nat)
      requires Valid() && node in cache.View().Open() && newpath in paths
      requires forall k :: k in cache.View().Open() && k != node ==> cache.View().Open()[k].path != newpath
      modifies Repr()
      ensures cache.Valid() && Repr() == old(Repr()) && Aged() && old(Now()) <= t <= Now() && status == Ok
      ensures Tidy(cache.View(), paths, hashOf) <==> newpath !in LiveMap(old(bindings), Ttl(), t)
      ensures var live, datum := LiveMap(old(bindings), Ttl(), t), old(cache.View().Open()[node]).data;
        newpath !in live ==> Valid() && bindings == live[newpath := Binding(datum, Now())]
      ensures Constructed() && Leads(node, File(newpath, old(cache.View().Open()[node]).data))
      ensures node in cache.list.modTime && cache.list.modTime[node] == Now()
    {
      hide HashTable.Valid, CacheList.Valid, State.Valid, State.Open, Binds, Tidy, LiveMap, NoPrefixCollision;
      hide FileCache.Leads, HashTable.FrontsKept, State.Given, Contents.HasInFront, FileCache.Constructed;
      ghost var s := cache.View();
      s.OpenKnown(node);
      Retitle(node, newpath);
      cache.OwnReadable(node);
      status, t := GiveFirst(node);
      MoveThenGive(s, bindings, node, newpath, Ttl(), t, Now(), paths, hashOf);
      AllConstructed();
      bindings := LiveMap(bindings, Ttl(), t)[newpath := Binding(s.Open()[node].data, Now())];
    }

    /** The listed entry holds this and is the first in its chain. */
    ghost predicate Leads(node: Ptr, f: File<D>)
      reads cache, cache.table, cache.list
    {
      && node in cache.list.nodes && node in cache.body && cache.body[node] == f
      && node in cache.data && cache.table.View().HasInFront(cache.data[node])
      && cache.table.hash[cache.data[node]] == hashOf(f.path)
    }

    // sftfs_cache_give on a taken entry that is the first in its chain.
    method GiveFirst(node: Ptr) returns (status: Status, ghost t: nat)
      requires cache.Valid() && node in cache.data && node in cache.body && node !in cache.list.nodes
      requires node in cache.serial && cache.table.View().HasInFront(cache.data[node])
      requires cache.table.hash[cache.data[node]] == hashOf(cache.body[node].path)
      modifies cache, cache.table, cache.table.buckets, cache.list, cache.list.clock
      ensures cache.Valid() && cache.table == old(cache.table) && status == Ok && Aged() && old(Now()) <= t <= Now()
      ensures cache.View() == old(cache.View()).Given(node, Ttl(), t, Now()) && Leads(node, old(cache.body)[node])
      ensures node in cache.list.modTime && cache.list.modTime[node] == Now()
    {
      hide HashTable.Valid, CacheList.Valid, State.Valid, Contents.HasInFront;
      ghost var s := cache.View();
      cache.OwnReadable(node);
      status, t := cache.Give(node);
      s.EvictKeepsTaken(node, Ttl(), t);
      s.EvictKeepsHashes(Ttl(), t);
      s.EvictFrees(Ttl(), t);
      cache.View().Known(node);
    }

    // While an entry leads, it is the one found.
    lemma LeaderFound(node: Ptr, f: File<D>)
      requires cache.Valid() && Constructed() && Leads(node, f)
      ensures node != NULL && node == FirstMatch(hashOf(f.path), f.path)
    {
      hide HashTable.Valid, CacheList.Valid, State.Valid;
      var h := hashOf(f.path);
      cache.Housed();
      cache.EntryHasNode(cache.data[node]);
      cache.AtMatch(h, 0);
      assert cache.Matches(h, 0) == [] && cache.Matches(h, 1) == [node];
      cache.MatchesPrefix(h, 1, |cache.ChainOf(h)|);
      FirstEqAt(PathsOf(cache.Matches(h, |cache.ChainOf(h)|)), f.path, 0);
    }

    lemma LeaderHolds(node: Ptr, f: File<D>)
      requires cache.Valid() && Leads(node, f)
      ensures node in cache.data && node in cache.list.nodes && node in cache.body && cache.body[node] == f
      ensures cache.View().Valid() && cache.View().body == cache.body
      ensures cache.table.View().HasInFront(cache.data[node])
      ensures cache.table.hash[cache.data[node]] == hashOf(f.path)
    {
    }

    // Evicting leaves the entry where it was if it has not expired.
    lemma StillLeads(s: State<File<D>>, before: Contents, node: Ptr, f: File<D>)
      requires cache.Valid() && s.Valid() && cache.View() == s.Evict(Ttl(), Now())
      requires node in s.nodes && node in s.stamp && !Expired(s.stamp[node], Ttl(), Now())
      requires node in s.body && s.body[node] == f && node in s.data
      requires s.data[node] in s.hash && s.hash[s.data[node]] == hashOf(f.path)
      requires before.HasInFront(s.data[node])
      requires forall e :: e in cache.table.hash && before.HasInFront(e) ==> cache.table.View().HasInFront(e)
      ensures Leads(node, f)
    {
      hide HashTable.Valid, CacheList.Valid, State.Valid, Contents.HasInFront;
      s.EvictKeepsLive(node, Ttl(), Now());
      s.EvictKeepsHashes(Ttl(), Now());
      s.EvictFrees(Ttl(), Now());
      cache.View().Known(node);
    }

    lemma AllConstructed()
      requires cache.Valid() && cache.body.Keys == cache.data.Keys
      ensures Constructed()
    {
      hide HashTable.Valid, CacheList.Valid, State.Accounted, Sorted, Distinct;
    }

    // The taken entry gets the new path, and the hash of that.
    method Retitle(node: Ptr, newpath: string)
      requires cache.Valid() && node in cache.data && node in cache.body && node !in cache.list.nodes
      modifies cache, cache.table, cache.table.buckets
      ensures cache.Valid() && cache.table == old(cache.table) && cache.data == old(cache.data)
      ensures cache.View() == old(cache.View()).Moved(node, File(newpath, old(cache.body)[node].data), hashOf(newpath))
      ensures cache.table.View().HasInFront(cache.data[node])
    {
      hide HashTable.Valid, CacheList.Valid, State.Valid, Contents.HasInFront;
      cache.SetBody(node, File(newpath, cache.body[node].data));
      cache.OwnReadable(node);
      var status := cache.RehashEntry(node, hashOf(newpath));
    }

    /** sftfs_cache_rename_file: it moves the binding, and leaves the cache in order exactly when the
        new path was not bound already. In any case the renamed entry is the one found. */
    method RenameFile(oldpath: string, newpath: string) returns (status: FileStatus, ghost t: nat, ghost node: Ptr)
      requires Valid() && oldpath in paths && newpath in paths && Closed(newpath)
      modifies Repr()
      ensures cache.Valid() && Repr() == old(Repr()) && Aged() && old(Now()) <= t <= Now()
      ensures status == FileOk || status == DoesNotExist
      ensures status == FileOk ==>
        oldpath in old(bindings) && !Expired(old(bindings)[oldpath].stamp, Ttl(), old(Next())) && old(Next()) <= t
      ensures status == DoesNotExist ==> Valid() && bindings == LiveMap(old(bindings), Ttl(), t) && oldpath !in bindings
      ensures status == FileOk ==>
        (Tidy(cache.View(), paths, hashOf) <==> newpath !in LiveMap(old(bindings), Ttl(), t) - {oldpath})
      ensures var others := LiveMap(old(bindings), Ttl(), t) - {oldpath};
        status == FileOk && newpath !in others ==>
        Valid() && bindings == others[newpath := Binding(old(bindings)[oldpath].data, Now())]
      ensures status == FileOk ==> Constructed() && Leads(node, File(newpath, old(bindings)[oldpath].data))
      ensures status == FileOk ==> node != NULL && node == FirstMatch(hashOf(newpath), newpath)
      ensures status == FileOk ==> node in cache.list.modTime && cache.list.modTime[node] == Now()
    {
      hide Cache.Valid, State.Valid, Binds, Tidy, NoPrefixCollision, LiveMap, FileCache.IsEntryOf;
      hide FileCache.Leads, FileCache.FirstMatch, FileCache.Constructed;
      ghost var m, count := bindings, Count();
      var found := FindEntry(oldpath);
      t, node := Now(), found;
      EntryBinds(found, oldpath);
      if found == NULL {
        return DoesNotExist, t, node;
      }
      LiveDatum(m, oldpath, Ttl(), t);
      ClockShows(count);
      LiveSooner(m, oldpath, Ttl(), t);
      LiveTwice(m, {oldpath}, Ttl(), t, t);
      var taken := TakeEntry(found);
      LiveTwice(m, {oldpath}, Ttl(), t, Now());
      ghost var t1 := Now();
      var st;
      st, t := GiveAs(taken, newpath);
      LeaderFound(node, File(newpath, m[oldpath].data));
      LiveThenLive(m, oldpath, Ttl(), t1, t);
      status := FileOk;
    }

    /** Whether or not the new path was bound before: until it expires, a lookup of the new path finds
        the renamed entry. */
    method RenameAndFind(oldpath: string, newpath: string) returns (status: FileStatus, r: Option<D>, ghost stamp: nat)
      requires Valid() && oldpath in paths && newpath in paths && Closed(newpath)
      modifies Repr()
      ensures cache.Valid() && Aged() && old(Now()) <= stamp <= Now()
      ensures if status == FileOk then oldpath in old(bindings)
        else status == DoesNotExist && r == None && oldpath !in LiveMap(old(bindings), Ttl(), stamp)
      ensures status == FileOk && Now() <= stamp + Ttl() ==> r == Some(old(bindings)[oldpath].data)
    {
      hide Cache.Valid, State.Valid, Binds, Tidy, NoPrefixCollision, LiveMap, FileCache.Leads, FileCache.FirstMatch;
      hide State.Evict, Contents.HasInFront;
      ghost var t, node;
      ghost var m := bindings;
      status, t, node := RenameFile(oldpath, newpath);
      stamp := Now();
      r := None;
      if status == DoesNotExist {
        LiveAbsent(m, oldpath, Ttl(), t);
      }
      if status == FileOk {
        ghost var s, before, f := cache.View(), cache.table.View(), File(newpath, m[oldpath].data);
        LeaderHolds(node, f);
        var found := Search(newpath);
        if Now() <= stamp + Ttl() {
          StillLeads(s, before, node, f);
          LeaderFound(node, f);
          LeaderHolds(node, f);
        }
        r := if found == NULL then None else Some(cache.body[found].data);
      }
    }

  }
}
