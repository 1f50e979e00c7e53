/** Opening, creating, writing and closing files (include/endp/cached.h): whose attributes to forget
    after a write is looked up in the map from handles to paths. */
module OpenFiles {
  import opened FileCaches
  import opened HandleMaps
  import opened Paths
  import opened Endpoints

  /** Of the paths in use, writing through a handle changes what is at the one it was opened at only,
      and nothing if it fails. */
  ghost predicate WritesAt<S(!new), A>(lookup: (S, string) -> Reply<A>, effect: S -> (S, int), path: string,
        paths: iset<string>)
  {
    forall s: S, p: string {:trigger lookup(effect(s).0, p)} ::
      p in paths && (effect(s).1 < 0 || p != path) ==> lookup(effect(s).0, p) == lookup(s, p)
  }

  /** The same of creating a file. */
  ghost predicate CreatesAt<S(!new), A>(lookup: (S, string) -> Reply<A>, effect: S -> (S, int), path: string,
        paths: iset<string>)
  {
    forall s: S, p: string {:trigger lookup(effect(s).0, p)} ::
      p in paths && (effect(s).1 != 0 || p != path) ==> lookup(effect(s).0, p) == lookup(s, p)
  }

  /** Whether a write leaves a coherent cache coherent, from what is known before it: it fails, the
      handle is registered, nothing is cached for the path, or nothing changes there. */
  ghost predicate Harmless<S, A>(lookup: (S, string) -> Reply<A>, effect: S -> (S, int), state: S, registered: bool,
        m: map<string, Binding<A>>, path: string)
  {
    effect(state).1 < 0 || registered || path !in m || lookup(effect(state).0, path) == lookup(state, path)
  }

  // Coherence is lost at the path written to, or not at all.
  lemma WriteCoherentIff<S(!new), A>(lookup: (S, string) -> Reply<A>, effect: S -> (S, int), state: S, path: string,
        paths: iset<string>, registered: bool, m: map<string, Binding<A>>, m': map<string, Binding<A>>)
    requires WritesAt(lookup, effect, path, paths) && CoherentIn(lookup, state, m) && Within(m', m)
    requires forall p :: p in m ==> p in paths
    requires if effect(state).1 >= 0 && registered then path !in m' else m' == m
    ensures CoherentIn(lookup, effect(state).0, m') <==> Harmless(lookup, effect, state, registered, m, path)
  {
    if path in m' {
      assert m'[path] == m[path];
    }
  }

  /** sftfs_cached_write: `path` is what the handle was opened at. A coherent cache stays coherent
      exactly when the write is harmless. */
  method Write<S(!new), A(0, !new)>(endp: CachedEndpoint<S, A>, handles: HandleMap, handle: nat, effect: S -> (S, int),
        ghost path: string) returns (rc: int)
    requires endp.Valid() && handles.Valid() && endp.Repr() !! handles.Repr() && path in endp.attrs.paths
    requires handle in handles.paths ==> handles.paths[handle] == path
    modifies endp.Repr()
    ensures endp.Valid() && endp.Repr() == old(endp.Repr()) && (endp.remote.state, rc) == effect(old(endp.remote.state))
    ensures endp.dirs.bindings == old(endp.dirs.bindings) && endp.Taken() == old(endp.Taken())
    ensures endp.attrs.Aged()
    ensures rc >= 0 && handle in handles.paths ==> path !in endp.attrs.bindings
    ensures !(rc >= 0 && handle in handles.paths) ==> endp.attrs.bindings == old(endp.attrs.bindings)
    ensures Within(endp.attrs.bindings, old(endp.attrs.bindings))
    ensures forall p {:trigger p in endp.attrs.bindings} ::
      && p in old(endp.attrs.bindings) && p != path
      && endp.attrs.Now() <= old(endp.attrs.bindings)[p].stamp + endp.attrs.Ttl()
      ==> p in endp.attrs.bindings && endp.attrs.bindings[p] == old(endp.attrs.bindings)[p]
    ensures var harmless := Harmless(endp.remote.lookup, effect, old(endp.remote.state), handle in handles.paths,
                                     old(endp.attrs.bindings), path);
      WritesAt(endp.remote.lookup, effect, path, endp.attrs.paths) && old(endp.Coherent()) ==>
        (endp.Coherent() <==> harmless)
  {
    hide CachedEndpoint.Valid, CachedEndpoint.Repr, CachedEndpoint.Taken, WritesAt, CoherentIn, HandleMap.Valid;
    hide Within, Harmless;
    ghost var state, m := endp.remote.state, endp.attrs.bindings;
    endp.ReprAllocated();
    endp.BoundInUse();
    SameWithin(m);
    var known := handles.Get(handle);
    var after := effect(endp.remote.state);
    rc := after.1;
    endp.LetOthersWork(_ => after.0);
    if rc >= 0 && known.Some? {
      endp.InvalAttr(known.value);
      PurgedWithin(m, endp.attrs.bindings, endp.attrs.Ttl(), endp.attrs.Now(), path);
    }
    OthersLeft(m, endp.attrs.bindings, endp.attrs.Ttl(), endp.attrs.Now(), path, "", false, false);
    if WritesAt(endp.remote.lookup, effect, path, endp.attrs.paths) && CoherentIn(endp.remote.lookup, state, m) {
      WriteCoherentIff(endp.remote.lookup, effect, state, path, endp.attrs.paths, handle in handles.paths, m,
        endp.attrs.bindings);
    }
  }

  lemma SameWithin<A>(m: map<string, Binding<A>>)
    ensures Within(m, m)
  {
  }

  lemma PurgedWithin<A>(m: map<string, Binding<A>>, m': map<string, Binding<A>>, ttl: nat, t: nat, path: string)
    requires Purged(m', m, ttl, t, path, true)
    ensures Within(m', m) && path !in m'
  {
  }

  /** sftfs_cached_open, the remote having opened the file: the handle is registered. */
  method Open(handles: HandleMap, handle: nat, path: string, rc: int)
    requires handles.Valid()
    modifies handles.Repr()
    ensures handles.Valid() && handles.Grown()
    ensures rc != 0 ==> handles.paths == old(handles.paths)
    ensures rc == 0 ==> handles.paths == (old(handles.paths) - Lost(old(handles.table.View()), handle))[handle := path]
    ensures rc == 0 ==> handle in handles.paths && handles.paths[handle] == path
    ensures forall h :: h in handles.paths && h != handle ==>
      h in old(handles.paths) && handles.paths[h] == old(handles.paths)[h]
    ensures rc == 0 && handle !in old(handles.paths) ==> handles.paths == old(handles.paths)[handle := path]
  {
    hide HandleMap.Valid;
    if rc == 0 {
      handles.Register(handle, path);
    }
  }

  /** sftfs_cached_create: the caches forget the path, but the handle is not registered. */
  method Create<S(!new), A(0, !new)>(endp: CachedEndpoint<S, A>, path: string, effect: S -> (S, int)) returns (rc: int)
    requires endp.Valid() && path in endp.attrs.paths && Absolute(path)
    modifies endp.Repr()
    ensures endp.Valid() && endp.Repr() == old(endp.Repr()) && (endp.remote.state, rc) == effect(old(endp.remote.state))
    ensures endp.Taken() == old(endp.Taken()) && endp.attrs.Aged()
    ensures rc != 0 ==>
      && endp.attrs.bindings == old(endp.attrs.bindings) && endp.dirs.bindings == old(endp.dirs.bindings)
      && endp.links.bindings == old(endp.links.bindings)
    ensures rc == 0 ==>
      path !in endp.attrs.bindings && path !in endp.dirs.bindings && path !in endp.links.bindings
    ensures rc == 0 && 0 < LastSeparator(path) && CutTooShort(path) in endp.attrs.paths ==>
      var base := CutTooShort(path);
      base !in endp.attrs.bindings && base !in endp.dirs.bindings && base !in endp.links.bindings
    ensures forall p {:trigger p in endp.attrs.bindings} ::
      && p in old(endp.attrs.bindings) && p != path && !TakenForCut(p, path, endp.attrs.paths)
      && endp.attrs.Now() <= old(endp.attrs.bindings)[p].stamp + endp.attrs.Ttl()
      ==> p in endp.attrs.bindings && endp.attrs.bindings[p] == old(endp.attrs.bindings)[p]
    ensures rc == 0 ==>
      && PurgedBoth(endp.attrs.bindings, old(endp.attrs.bindings), endp.attrs.Ttl(), endp.attrs.Now(), path,
                    CutTooShort(path), CutKnown(path, endp.attrs.paths))
      && PurgedBoth(endp.dirs.bindings, old(endp.dirs.bindings), endp.dirs.Ttl(), endp.dirs.Now(), path,
                    CutTooShort(path), CutKnown(path, endp.attrs.paths))
      && PurgedBoth(endp.links.bindings, old(endp.links.bindings), endp.links.Ttl(), endp.links.Now(), path,
                    CutTooShort(path), CutKnown(path, endp.attrs.paths))
    ensures CreatesAt(endp.remote.lookup, effect, path, endp.attrs.paths) && old(endp.Coherent()) ==> endp.Coherent()
    ensures old(endp.Coherent()) ==>
      (endp.Coherent() <==>
         SameAt(endp.remote.lookup, old(endp.remote.state), endp.remote.state, endp.attrs.bindings))
  {
    hide CachedEndpoint.Valid, CachedEndpoint.Repr, CachedEndpoint.Taken, PurgedBoth, CreatesAt, CoherentIn, SameAt;
    hide Within;
    ghost var state, m, d, l := endp.remote.state, endp.attrs.bindings, endp.dirs.bindings, endp.links.bindings;
    endp.BoundInUse();
    SameWithin(m);
    var after := effect(endp.remote.state);
    rc := after.1;
    endp.LetOthersWork(_ => after.0);
    if rc == 0 {
      endp.InvalAllDir(path);
      AfterChange(m, endp.attrs.bindings, endp.attrs.Ttl(), endp.attrs.Now(), path);
      AfterChange(d, endp.dirs.bindings, endp.dirs.Ttl(), endp.dirs.Now(), path);
      AfterChange(l, endp.links.bindings, endp.links.Ttl(), endp.links.Now(), path);
    }
    ghost var base, known := CutTooShort(path), CutKnown(path, endp.attrs.paths);
    OthersLeft(m, endp.attrs.bindings, endp.attrs.Ttl(), endp.attrs.Now(), path, base, known, rc == 0);
    OthersLeft(d, endp.dirs.bindings, endp.dirs.Ttl(), endp.dirs.Now(), path, base, known, rc == 0);
    OthersLeft(l, endp.links.bindings, endp.links.Ttl(), endp.links.Now(), path, base, known, rc == 0);
    if CoherentIn(endp.remote.lookup, state, m) {
      CreateCoherent(endp.remote.lookup, effect, state, path, endp.attrs.paths, m, endp.attrs.bindings);
    }
  }

  lemma CreateCoherent<S(!new), A>(lookup: (S, string) -> Reply<A>, effect: S -> (S, int), state: S, path: string,
        paths: iset<string>, m: map<string, Binding<A>>, m': map<string, Binding<A>>)
    requires CoherentIn(lookup, state, m) && Within(m', m) && forall p :: p in m ==> p in paths
    requires effect(state).1 == 0 ==> path !in m'
    ensures CreatesAt(lookup, effect, path, paths) ==> CoherentIn(lookup, effect(state).0, m')
    ensures CoherentIn(lookup, effect(state).0, m') <==> SameAt(lookup, state, effect(state).0, m')
  {
    CoherentOnIff(lookup, state, effect(state).0, m, m');
  }

  /** Writing through a handle that is not registered, as after Create, to a path that getattr was asked
      about: if the write changes anything there, getattr goes on with the old answer until it expires. */
  method StaleAfterWrite<S(!new), A(0, !new)>(endp: CachedEndpoint<S, A>, handles: HandleMap, handle: nat,
        effect: S -> (S, int), path: string) returns (before: Reply<A>, after: Reply<A>, ghost stamp: nat)
    requires endp.Valid() && endp.Coherent() && handles.Valid() && endp.Repr() !! handles.Repr()
    requires path in endp.attrs.paths
    requires handle !in handles.paths && WritesAt(endp.remote.lookup, effect, path, endp.attrs.paths)
    requires effect(endp.remote.state).1 >= 0 && endp.remote.lookup(endp.remote.state, path).Found?
    requires endp.remote.lookup(effect(endp.remote.state).0, path) != endp.remote.lookup(endp.remote.state, path)
    modifies endp.Repr()
    ensures before == endp.remote.lookup(old(endp.remote.state), path) != endp.remote.lookup(endp.remote.state, path)
    ensures old(endp.attrs.Now()) <= stamp <= endp.attrs.Now() ||
      (path in old(endp.attrs.bindings) && stamp == old(endp.attrs.bindings)[path].stamp)
    ensures endp.attrs.Now() <= stamp + endp.attrs.Ttl() ==> after == before
  {
    hide CachedEndpoint.Valid, CachedEndpoint.Repr, CachedEndpoint.Taken, HandleMap.Valid, WritesAt, Sourced, Kept;
    HandlesAllocated(handles);
    before := endp.Stat(path);
    ghost var m := endp.attrs.bindings;
    stamp := m[path].stamp;
    var rc := Write(endp, handles, handle, effect, path);
    ghost var count := endp.attrs.Count();
    after := endp.Stat(path);
    endp.ClockShows(count);
  }

  lemma HandlesAllocated(handles: HandleMap)
    ensures forall o :: o in handles.Repr() ==> allocated(o)
  {
  }

  // A file system of one file whose size is its attribute, and a write of one byte at its end.
  function SizeAt(size: int, p: string): Reply<int> {
    if p == "/f" then Found(size) else Failed(2)
  }

  function OneByteMore(size: int): (int, int) {
    (size + 1, 1)
  }

  /** There are such writes. */
  lemma GrowingFile(size: int, paths: iset<string>)
    ensures WritesAt(SizeAt, OneByteMore, "/f", paths) && OneByteMore(size).1 >= 0
    ensures SizeAt(size, "/f") == Found(size) && SizeAt(OneByteMore(size).0, "/f") == Found(size + 1)
    ensures !Harmless(SizeAt, OneByteMore, size, false, map["/f" := Binding(size, 0)], "/f")
  {
  }
}
