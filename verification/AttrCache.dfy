/** The attribute cache of src/cache/attr.c: the path cache with one attribute record a path. */
module AttrCaches {
  import opened Memory
  import opened Clocks
  import opened CacheStates
  import opened FileCaches

  /** sftfs_cache_get_attr */
  method GetAttr<A(0)>(attrs: FileCache<A>, path: string) returns (attr: Option<A>)
    requires attrs.Valid()
    modifies attrs.Repr()
    ensures attrs.Valid() && attrs.Repr() == old(attrs.Repr()) && attrs.Aged()
    ensures attrs.cache.View().Open() == old(attrs.cache.View().Open())
    ensures attrs.bindings == LiveMap(old(attrs.bindings), attrs.Ttl(), attrs.Now())
    ensures attr.Some? || old(attrs.bindings) != map[] ==> attrs.Count() > old(attrs.Count())
    ensures path in attrs.paths ==> attr == if path in attrs.bindings then Some(attrs.bindings[path].data) else None
    ensures var m := old(attrs.bindings);
      path in attrs.bindings <==> path in m && attrs.Now() <= m[path].stamp + attrs.Ttl()
    ensures attr.None? ==> forall p :: p in attrs.bindings ==> !attrs.Accepts(p, path)
    ensures attr.Some? ==>
      exists p :: p in attrs.bindings && attrs.Accepts(p, path) && attr.value == attrs.bindings[p].data
  {
    attr := attrs.PeekFile(path);
  }

  /** sftfs_cache_put_attr: the path is bound to `attr` from now on, and every other path keeps what
      it had unless that has expired. */
  method PutAttr<A(0)>(attrs: FileCache<A>, path: string, attr: A) returns (status: FileStatus, ghost t: nat)
    requires attrs.Valid() && path in attrs.paths && attrs.Closed(path)
    modifies attrs.Repr()
    ensures attrs.Valid() && fresh(attrs.Repr() - old(attrs.Repr()))
    ensures attrs.Aged() && old(attrs.Now()) <= t <= attrs.Now()
    ensures attrs.cache.View().Open() == old(attrs.cache.View().Open())
    ensures status == FileOk && attrs.Count() > old(attrs.Count())
    ensures attrs.bindings == LiveMap(old(attrs.bindings), attrs.Ttl(), t)[path := Binding(attr, attrs.Now())]
  {
    hide FileCache.Valid, FileCache.Closed, Caches.Cache.Valid, Tidy, State.Open, LiveMap;
    ghost var m := attrs.bindings;
    var node, isNew;
    node, isNew, t := attrs.TakeFile(path);
    ghost var t1 := attrs.Now();
    attrs.SetData(node, attr);
    status, t := attrs.GiveFile(path, node);
    LiveThenBound(m, path, attrs.Ttl(), t1, t, Binding(attr, attrs.Now()));
  }

  lemma LiveThenBound<A>(m: map<string, Binding<A>>, path: string, ttl: nat, t: nat, t': nat, b: Binding<A>)
    requires t <= t'
    ensures LiveMap(LiveMap(m, ttl, t) - {path}, ttl, t')[path := b] == LiveMap(m, ttl, t')[path := b]
  {
  }

  /** Whenever a path shares its hash with a proper prefix of itself, there is a run in which what was
      stored for the prefix is the answer for the path, for which nothing ever was. */
  method CollisionMisleads<A(0)>(clock: Clock, ttl: nat, hashOf: string -> nat, p: string, q: string, attr: A)
      returns (attrs: FileCache<A>, r: Option<A>, ghost stamp: nat)
    requires clock.Valid() && clock.horizon + ttl < TIME_LIMIT && p < q && hashOf(p) == hashOf(q)
    modifies clock
    ensures fresh(attrs) && attrs.Valid() && attrs.cache.list.clock == clock && attrs.Ttl() == ttl
    ensures p != q && q !in attrs.bindings && attrs.bindings.Keys <= {p} && attrs.Accepts(p, q)
    ensures p in attrs.bindings ==> attrs.bindings[p] == Binding(attr, stamp)
    ensures r == if p in attrs.bindings then Some(attr) else None
    ensures clock.Ran() && old(clock.now) <= stamp && (clock.now <= stamp + ttl ==> p in attrs.bindings)
  {
    hide FileCache.Valid, Caches.Cache.View, State.Open;
    attrs := new FileCache<A>(clock, ttl, hashOf, iset{p});
    var status;
    ghost var t;
    status, t := PutAttr(attrs, p, attr);
    stamp := attrs.Now();
    r := GetAttr(attrs, q);
    assert attrs.Accepts(p, q);
  }

  /** A rename stamps what it moves anew: attributes are answered until the time to live after the rename.
      They were stored no longer than the time to live before that began. */
  method RenameOutlives<A(0)>(attrs: FileCache<A>, oldpath: string, newpath: string, attr: A)
      returns (status: FileStatus, r: Option<A>, ghost stored: nat, ghost first: nat, ghost renamed: nat)
    requires attrs.Valid() && attrs.bindings == map[] && attrs.cache.View().Open() == map[]
    requires oldpath in attrs.paths && newpath in attrs.paths
    modifies attrs.Repr()
    ensures attrs.Valid() && old(attrs.Now()) <= stored <= first && stored <= renamed <= attrs.Now()
    ensures if status == FileOk then first <= renamed && first <= stored + attrs.Ttl()
      else status == DoesNotExist && r == None && renamed > stored + attrs.Ttl()
    ensures status == FileOk ==> r == if attrs.Now() <= renamed + attrs.Ttl() then Some(attr) else None
    ensures r.Some? ==> newpath in attrs.bindings && attrs.bindings[newpath] == Binding(attr, renamed)
  {
    hide FileCache.Valid, Tidy, LiveMap, State.Open;
    ghost var ttl, t, node := attrs.Ttl(), 0, 0;
    status, t := PutAttr(attrs, oldpath, attr);
    stored, first := attrs.Now(), attrs.Next();
    OneBinding(oldpath, Binding(attr, stored), ttl, t);
    attrs.ClockShows(attrs.Count() - 1);
    assert attrs.bindings == map[oldpath := Binding(attr, stored)];
    status, t, node := attrs.RenameFile(oldpath, newpath);
    renamed := attrs.Now();
    OneBinding(oldpath, Binding(attr, stored), ttl, t);
    r := GetAttr(attrs, newpath);
    OneBinding(newpath, Binding(attr, renamed), ttl, attrs.Now());
  }

  lemma OneBinding<A>(path: string, b: Binding<A>, ttl: nat, t: nat)
    ensures LiveMap<A>(map[], ttl, t) == map[]
    ensures LiveMap(map[path := b], ttl, t) == if Expired(b.stamp, ttl, t) then map[] else map[path := b]
    ensures LiveMap(map[path := b], ttl, t) - {path} == map[]
  {
  }
}
