/** Whole runs over one mount while others change the remote at will: nothing that is handed out, by
    getattr or with a listing, is older than the time to live. */
module SharedMounts {
  import opened Clocks
  import opened CacheStates
  import opened FileCaches
  import opened Paths
  import opened PathBuffers
  import opened HandleMaps
  import opened Endpoints
  import opened OpenFiles
  import opened Readdirs
  import opened Mounts

  /** Where a run has come to: the state of the remote, the files it has open, and the names that may be
      cached for its directories. */
  datatype Site<S> = Site(state: S, open: map<nat, string>, cached: iset<Cached>) {
    ghost function Next<A>(apply: (S, Op) -> (S, int), server: Server<S, A>, call: Call<A>): Site<S> {
      match call
      case Simple(request) =>
        var next := this.(state := StateAfter(apply, state, request));
        if request.Change? && request.op.OnDirectory() && apply(state, request.op).1 == 0
        then next.Forget(request.op.path) else next
      case List(dir, _) => Relist(dir, Names(server.list(state, dir).0))
      case CreateFile(h, path) =>
        var next := this.(state := server.create(state, path).0);
        if server.create(state, path).1 == 0 then next.(open := open[h := path]).Forget(path) else next
      case OpenFile(h, path) => if server.open(state, path) != 0 then this else this.(open := open[h := path])
      case WriteFile(h, data) => if h in open then this.(state := server.write(state, open[h], data).0) else this
      case CloseFile(h) => this.(open := open - {h})
    }

    /** Nothing is cached for this directory. */
    ghost function Forget(dir: string): Site<S> {
      this.(cached := iset c | c in cached && c.dir != dir)
    }

    /** After a listing these names may be cached, or what was, or that and the names behind it. */
    ghost function Relist(dir: string, names: seq<string>): Site<S> {
      this.(cached := iset c: Cached |
        c in cached || (c.dir == dir && (c.names == names || c.names in Longer(dir, names))))
    }

    ghost function Longer(dir: string, names: seq<string>): iset<seq<string>> {
      iset c | c in cached && c.dir == dir :: c.names + names
    }

    /** Others have been at work. */
    ghost function Disturbed(writer: S -> S): Site<S> {
      this.(state := writer(state))
    }
  }

  /** After `n` calls, each of them preceded by what others do. */
  ghost function SiteAt<S, A>(apply: (S, Op) -> (S, int), server: Server<S, A>, state: S, calls: seq<Call<A>>,
        outside: seq<S -> S>, n: nat): Site<S>
    requires n <= |calls| == |outside|
  {
    if n == 0 then Site(state, map[], iset{})
    else
      var before := SiteAt(apply, server, state, calls, outside, n - 1).Disturbed(outside[n - 1]);
      before.Next(apply, server, calls[n - 1])
  }

  /** The calls made so far: the state after each of them, and how often the clock of the attributes had
      been read before the first and after each. */
  datatype Record<S> = Record(clock: Clock, counts: seq<nat>, states: seq<S>) {
    ghost predicate Valid() {
      |counts| == |states| + 1 && forall i, j :: 0 <= i <= j < |counts| ==> counts[i] <= counts[j]
    }

    /** In the call to come, with the remote in state `now`: this is what it says, or what it said after an
        earlier call that the first reading of the clock in this one is not more than `ttl` behind. */
    ghost predicate Fresh<A>(lookup: (S, string) -> Reply<A>, ttl: nat, now: S, path: string, attr: A)
      requires Valid()
    {
      || lookup(now, path) == Found(attr)
      || exists j ::
           && 0 <= j < |states| && lookup(states[j], path) == Found(attr)
           && clock.reading(counts[|states|]) <= clock.LastBefore(counts[j + 1]) + ttl
    }

    ghost predicate AllFresh<A>(lookup: (S, string) -> Reply<A>, ttl: nat, now: S, dir: string,
          entries: seq<DirEntry<A>>)
      requires Valid() && Absolute(dir)
    {
      forall k :: 0 <= k < |entries| ==> Fresh(lookup, ttl, now, EntryPath(dir, entries[k].name), entries[k].stat)
    }

    /** Every binding is what the remote said after a call that it was not stored later than. */
    ghost predicate Covers<A>(lookup: (S, string) -> Reply<A>, m: map<string, Binding<A>>)
      requires Valid()
    {
      forall p :: p in m ==> exists j ::
        && 0 <= j < |states| && lookup(states[j], p) == Found(m[p].data)
        && m[p].stamp <= clock.LastBefore(counts[j + 1])
    }

    ghost function Onward(count: nat, state: S): Record<S> {
      Record(clock, counts + [count], states + [state])
    }

    // What a call leaves cached is covered with it.
    lemma CoversOnward<A>(lookup: (S, string) -> Reply<A>, m: map<string, Binding<A>>, m': map<string, Binding<A>>,
          count: nat, state: S)
      requires Valid() && Covers(lookup, m) && Sourced(lookup, state, m', m) && counts[|states|] <= count
      requires forall p :: p in m' ==> m'[p].stamp <= clock.LastBefore(count)
      ensures Onward(count, state).Valid() && Onward(count, state).Covers(lookup, m')
    {
      var after := Onward(count, state);
      forall p | p in m'
        ensures exists j ::
          && 0 <= j < |after.states| && lookup(after.states[j], p) == Found(m'[p].data)
          && m'[p].stamp <= clock.LastBefore(after.counts[j + 1])
      {
        if p in m && m'[p] == m[p] {
          var j :|
            && 0 <= j < |states| && lookup(states[j], p) == Found(m[p].data)
            && m[p].stamp <= clock.LastBefore(counts[j + 1]);
          assert after.states[j] == states[j] && after.counts[j + 1] == counts[j + 1];
        } else {
          assert after.states[|states|] == state && after.counts[|states| + 1] == count;
        }
      }
    }

    // What a getattr answers from a cache that is covered is fresh.
    lemma AnsweredFresh<A>(lookup: (S, string) -> Reply<A>, ttl: nat, now: S, m: map<string, Binding<A>>, t: nat,
          path: string, r: Reply<A>)
      requires Valid() && Covers(lookup, m)
      requires Answered(lookup, now, m, ttl, clock.reading(counts[|states|]), t, path, r)
      ensures if r.Found? then Fresh(lookup, ttl, now, path, r.attr) else r == lookup(now, path)
    {
      if r != lookup(now, path) {
        var j :|
          && 0 <= j < |states| && lookup(states[j], path) == Found(m[path].data)
          && m[path].stamp <= clock.LastBefore(counts[j + 1]);
      }
    }

    lemma {:induction false} CallsFresh<A>(lookup: (S, string) -> Reply<A>, ttl: nat, now: S, dir: string,
          entries: seq<DirEntry<A>>, answer: seq<DirEntry<A>> -> int, made: seq<DirEntry<A>>)
      requires Valid() && Absolute(dir) && AllFresh(lookup, ttl, now, dir, made)
      requires TrueEntries(lookup, now, dir, entries)
      ensures AllFresh(lookup, ttl, now, dir, Calls(entries, answer, made))
      decreases |entries|
    {
      if entries != [] {
        CallsFresh(lookup, ttl, now, dir, entries[1..], answer, made + [entries[0]]);
      }
    }

    lemma {:induction false} PlusCallsFresh<A>(lookup: (S, string) -> Reply<A>, ttl: nat, now: S, dir: string,
          names: seq<string>, replies: seq<Reply<A>>, answer: seq<DirEntry<A>> -> int, made: seq<DirEntry<A>>)
      requires Valid() && Absolute(dir) && |names| == |replies| && AllFresh(lookup, ttl, now, dir, made)
      requires forall i :: 0 <= i < |names| && replies[i].Found? ==>
        Fresh(lookup, ttl, now, EntryPath(dir, names[i]), replies[i].attr)
      ensures AllFresh(lookup, ttl, now, dir, PlusCalls(names, replies, answer, made).0)
      decreases |names|
    {
      hide Record.Fresh;
      if names != [] && replies[0].Found? {
        PlusCallsFresh(lookup, ttl, now, dir, names[1..], replies[1..], answer,
          made + [DirEntry(names[0], replies[0].attr)]);
      }
    }
  }

  /** What was recorded before call `i`. */
  ghost function RecordAt<S, A>(apply: (S, Op) -> (S, int), server: Server<S, A>, state: S, calls: seq<Call<A>>,
        outside: seq<S -> S>, clock: Clock, counts: seq<nat>, i: nat): Record<S>
    requires i < |counts| <= |calls| + 1 && |outside| == |calls|
  {
    Record(clock, counts[..i + 1],
      seq(i, j requires 0 <= j < i => SiteAt(apply, server, state, calls, outside, j + 1).state))
  }

  /** How a listing came about: if nothing that may be cached served it, it is the remote's; otherwise each
      name comes with a reply for it and, unless that was all, the remote's listing follows. */
  ghost predicate ListedBy<S, A>(w: Site<S>, dir: string, listing: seq<DirEntry<A>>, answer: seq<DirEntry<A>> -> int,
        names: seq<string>, replies: seq<Reply<A>>, entries: seq<DirEntry<A>>)
  {
    && Cached(dir, names) in w.cached && |replies| == |names|
    && var (made, whole) := PlusCalls(names, replies, answer, []);
       entries == if whole then made else Calls(listing, answer, made)
  }

  /** The outcome is the remote's own but for attributes, and those are fresh. */
  ghost predicate InTime<S, A(!new)>(lookup: (S, string) -> Reply<A>, apply: (S, Op) -> (S, int), server: Server<S, A>,
        past: Record<S>, ttl: nat, w: Site<S>, call: Call<A>, outcome: Outcome<A>)
    requires past.Valid()
  {
    match call
    case Simple(Stat(path)) =>
      && outcome.Told? && outcome.answer.Attr?
      && var r := outcome.answer.reply;
         if r.Found? then past.Fresh(lookup, ttl, w.state, path, r.attr) else r == lookup(w.state, path)
    case Simple(Change(op)) => outcome == Told(Code(apply(w.state, op).1))
    case List(dir, answer) =>
      && outcome.Listed? && Absolute(dir) && past.AllFresh(lookup, ttl, w.state, dir, outcome.entries)
      && var listing := server.list(w.state, dir).0;
         || outcome.entries == Calls(listing, answer, [])
         || exists names, replies :: ListedBy(w, dir, listing, answer, names, replies, outcome.entries)
    case CreateFile(_, path) => outcome == Done(server.create(w.state, path).1)
    case OpenFile(_, path) => outcome == Done(server.open(w.state, path))
    case WriteFile(h, data) => h in w.open && outcome == Done(server.write(w.state, w.open[h], data).1)
    case CloseFile(_) => outcome == Done(0)
  }

  /** The remote lists of this directory what it holds. */
  ghost predicate ListsTruly<S(!new), A>(lookup: (S, string) -> Reply<A>, server: Server<S, A>, dir: string,
        paths: iset<string>)
    requires Absolute(dir)
  {
    forall s {:trigger server.list(s, dir)} ::
      Listable(dir, server.list(s, dir).0, paths) && TrueEntries(lookup, s, dir, server.list(s, dir).0)
  }

  lemma ListsTrulyNow<S(!new), A(!new)>(lookup: (S, string) -> Reply<A>, server: Server<S, A>, dir: string,
        paths: iset<string>, state: S, zero: A)
    requires Absolute(dir) && ListsTruly(lookup, server, dir, paths)
    ensures var listing := server.list(state, dir).0;
      && Listable(dir, listing, paths) && EntriesKnown(dir, Names(listing), paths)
      && Shown(listing, true, zero) == listing && TrueEntries(lookup, state, dir, listing)
  {
    assert Shown(server.list(state, dir).0, true, zero) == server.list(state, dir).0;
  }

  // What a true listing leaves cached of attributes is what was cached before, or what the remote says.
  lemma ListedSourced<S, A>(lookup: (S, string) -> Reply<A>, state: S, m': map<string, Binding<A>>,
        m: map<string, Binding<A>>, dir: string, listing: seq<DirEntry<A>>)
    requires Absolute(dir) && ListedOver(lookup, state, m', m, dir, listing)
    requires TrueEntries(lookup, state, dir, listing)
    ensures Sourced(lookup, state, m', m)
  {
  }

  /** What a listing hands out, given what was cached of the directory's names and, by getattr's leave, of
      attributes: served from the names, or as the remote lists it. */
  ghost predicate ListedFrom<S, A>(lookup: (S, string) -> Reply<A>, state: S, m: map<string, Binding<string>>,
        a: map<string, Binding<A>>, ttl: nat, first: nat, t: nat, dir: string, listing: seq<DirEntry<A>>,
        answer: seq<DirEntry<A>> -> int, served: bool, replies: seq<Reply<A>>, entries: seq<DirEntry<A>>)
    requires Absolute(dir)
  {
    if served then
      && dir in m && IsListing(m[dir].data) && |replies| == |NamesIn(m[dir].data)|
      && AllAnswered(lookup, state, a, ttl, first, t, dir, NamesIn(m[dir].data), replies)
      && var (made, whole) := PlusCalls(NamesIn(m[dir].data), replies, answer, []);
         entries == if whole then made else Calls(listing, answer, made)
    else entries == Calls(listing, answer, [])
  }

  /** What a listing leaves cached of names. */
  ghost predicate NamesLeft<A>(m: map<string, Binding<string>>, m': map<string, Binding<string>>, dir: string,
        listing: seq<DirEntry<A>>)
  {
    && Within(m' - {dir}, m)
    && (dir in m' && IsListing(m'[dir].data) && NamesIn(m'[dir].data) != Names(listing) ==>
          && dir in m && IsListing(m[dir].data)
          && (NamesIn(m'[dir].data) == NamesIn(m[dir].data)
              || NamesIn(m'[dir].data) == NamesIn(m[dir].data) + Names(listing)))
  }

  // The cases of Readdir, with attributes.
  lemma ListingCases<S, A>(lookup: (S, string) -> Reply<A>, state: S, m0: map<string, Binding<string>>,
        m: map<string, Binding<string>>, m': map<string, Binding<string>>, a: map<string, Binding<A>>, ttl: nat,
        first: nat, now: nat, dirTtl: nat, t: nat, u: nat, dir: string, listing: seq<DirEntry<A>>,
        answer: seq<DirEntry<A>> -> int, isCached: bool, replies: seq<Reply<A>>, made: seq<DirEntry<A>>, replayed: bool)
    requires Absolute(dir) && Within(m, m0) && AllListings(m) && (isCached <==> dir in m) && t <= u
    requires Within(m' - {dir}, m) && (replayed ==> Within(m', m))
    requires !replayed ==>
      && dir in m' && IsListing(m'[dir].data)
      && NamesIn(m'[dir].data) == NamesBefore(m, dirTtl, u, dir) + Names(listing)
    requires !(isCached && dir in LiveMap(m, dirTtl, t)) ==> made == [] && !replayed
    requires isCached && dir in LiveMap(m, dirTtl, t) ==>
      && |replies| == |NamesIn(m[dir].data)|
      && AllAnswered(lookup, state, a, ttl, first, now, dir, NamesIn(m[dir].data), replies)
      && (made, replayed) == PlusCalls(NamesIn(m[dir].data), replies, answer, [])
    ensures ListedFrom(lookup, state, m0, a, ttl, first, now, dir, listing, answer,
              isCached && dir in LiveMap(m, dirTtl, t), replies,
              if replayed then made else Calls(listing, answer, made))
    ensures NamesLeft(m0, m', dir, listing)
  {
    hide IsListing, PlusCalls, Calls, AllAnswered;
    NamesBeforeLater(m, dirTtl, t, u, dir);
    forall p | p in m' - {dir} ensures p in m0 && m'[p] == m0[p] {
      assert p in m && (m' - {dir})[p] == m[p];
    }
  }

  /** opendir and readdir with attributes, on any cache. */
  method ListShared<S(!new), A(0, !new)>(endp: CachedEndpoint<S, A>, server: Server<S, A>, dir: string, zero: A,
        consumer: Consumer<A>) returns (ghost served: bool, ghost replies: seq<Reply<A>>)
    requires endp.Valid() && endp.Taken() == map[] && DirsKnown(endp.dirs.bindings, endp.attrs.paths)
    requires dir in endp.attrs.paths && Canonical(dir) && ListsTruly(endp.remote.lookup, server, dir, endp.attrs.paths)
    requires consumer !in endp.Repr() && consumer.calls == []
    modifies endp.Repr(), consumer
    ensures endp.Valid() && endp.Taken() == map[] && DirsKnown(endp.dirs.bindings, endp.attrs.paths)
    ensures endp.Grown() && endp.remote.state == old(endp.remote.state) && endp.attrs.Aged()
    ensures Sourced(endp.remote.lookup, endp.remote.state, endp.attrs.bindings, old(endp.attrs.bindings))
    ensures ListedFrom(endp.remote.lookup, endp.remote.state, old(endp.dirs.bindings), old(endp.attrs.bindings),
              endp.attrs.Ttl(), old(endp.attrs.Next()), endp.attrs.Now(), dir, server.list(endp.remote.state, dir).0,
              consumer.answer, served, replies, consumer.calls)
    ensures NamesLeft(old(endp.dirs.bindings), endp.dirs.bindings, dir, server.list(endp.remote.state, dir).0)
  {
    hide CachedEndpoint.Valid, CachedEndpoint.Repr, EntryPath, IsListing, State.Open, LiveMap, ListsTruly, DirsKnown;
    hide EntriesKnown, CoherentIn, AttributesRight, AllAnswered, Within, PlusCalls, Calls, NamesBefore, TrueEntries;
    hide Listable, Shown, ListedOver, Sourced, Kept, AttrsThere, ListedFrom, NamesLeft;
    ghost var lookup, state, paths, a := endp.remote.lookup, endp.remote.state, endp.attrs.paths, endp.attrs.bindings;
    ghost var m0, ttl, first := endp.dirs.bindings, endp.dirs.Ttl(), endp.attrs.Next();
    var isCached := DirExists(endp, dir);
    ghost var m := endp.dirs.bindings;
    LiveWithin(m0, ttl, endp.dirs.Now(), {});
    KnownWithin(m0, m, paths);
    KnownAt(m, paths, dir);
    var (listing, end) := server.list(endp.remote.state, dir);
    ListsTrulyNow(lookup, server, dir, paths, state, zero);
    var rc;
    ghost var t, u, made, replayed, asked;
    rc, t, u, replies, made, replayed, asked := Readdir(endp, dir, isCached, 0, listing, end, true, zero, consumer);
    served := isCached && dir in LiveMap(m, ttl, t);
    ListingCases(lookup, state, m0, m, endp.dirs.bindings, a, endp.attrs.Ttl(), first, endp.attrs.Now(), ttl, t, u, dir,
      listing, consumer.answer, isCached, replies, made, replayed);
    if asked {
      KnownAfter(m, endp.dirs.bindings, ttl, u, dir, Names(listing), paths);
      ListedSourced(lookup, state, endp.attrs.bindings, a, dir, listing);
    } else {
      KnownWithin(m, endp.dirs.bindings, paths);
    }
  }

  /** A call that can be made: about paths in use, with the handles that the remote gave out, and to list a
      directory that the remote lists as it is. */
  ghost predicate Possible<S(!new), A>(lookup: (S, string) -> Reply<A>, server: Server<S, A>, w: Site<S>, call: Call<A>,
        paths: iset<string>)
  {
    match call
    case Simple(request) => request.Path() in paths && Absolute(request.Path())
    case List(dir, _) => dir in paths && Canonical(dir) && ListsTruly(lookup, server, dir, paths)
    case CreateFile(h, path) => path in paths && Absolute(path) && h !in w.open
    case OpenFile(_, path) => path in paths
    case WriteFile(h, _) => h in w.open
    case CloseFile(_) => true
  }

  /** The caches and the remote are where the run has come to. */
  ghost predicate AtSite<S(!new), A(0, !new)>(endp: CachedEndpoint<S, A>, w: Site<S>)
    reads endp, endp.remote, endp.attrs, endp.dirs, endp.dirs.cache, endp.dirs.cache.table, endp.dirs.cache.list
  {
    && endp.Taken() == map[] && endp.remote.state == w.state
    && DirsKnown(endp.dirs.bindings, endp.attrs.paths) && Foreseen(endp.dirs.bindings, w.cached)
  }

  /** The handle map agrees with the remote's open files. */
  ghost predicate Agrees(paths: map<nat, string>, open: map<nat, string>, known: iset<string>) {
    && (forall h :: h in open ==> open[h] in known)
    && (forall h :: h in paths ==> h in open && paths[h] == open[h])
  }

  /** The record ends where the attribute cache is now, and covers it. */
  ghost predicate UpToNow<S(!new), A(0, !new)>(endp: CachedEndpoint<S, A>, past: Record<S>)
    reads endp, endp.attrs, endp.attrs.cache.list.clock
  {
    && past.Valid() && past.clock == endp.attrs.cache.list.clock && past.counts[|past.states|] == endp.attrs.Count()
    && past.Covers(endp.remote.lookup, endp.attrs.bindings)
  }

  method ShareStat<S(!new), A(0, !new)>(endp: CachedEndpoint<S, A>, server: Server<S, A>, path: string,
        ghost w: Site<S>, ghost past: Record<S>) returns (outcome: Outcome<A>)
    requires endp.Valid() && AtSite(endp, w) && path in endp.attrs.paths && UpToNow(endp, past)
    modifies endp.Repr()
    ensures endp.Valid() && endp.Grown() && endp.attrs.Aged()
    ensures AtSite(endp, w.Next(endp.remote.apply, server, Simple(Stat(path))))
    ensures Sourced(endp.remote.lookup, endp.remote.state, endp.attrs.bindings, old(endp.attrs.bindings))
    ensures InTime(endp.remote.lookup, endp.remote.apply, server, past, endp.attrs.Ttl(), w, Simple(Stat(path)),
              outcome)
  {
    hide CachedEndpoint.Valid, CachedEndpoint.Repr, CachedEndpoint.Taken, DirsKnown, Foreseen, Sourced, Kept, Answered;
    hide Record.Fresh, Record.Covers;
    ghost var m := endp.attrs.bindings;
    var r := endp.Stat(path);
    past.AnsweredFresh(endp.remote.lookup, endp.attrs.Ttl(), w.state, m, endp.attrs.Now(), path, r);
    outcome := Told(Attr(r));
  }

  method ShareChange<S(!new), A(0, !new)>(endp: CachedEndpoint<S, A>, server: Server<S, A>, op: Op, ghost w: Site<S>,
        ghost past: Record<S>) returns (outcome: Outcome<A>)
    requires endp.Valid() && AtSite(endp, w) && op.path in endp.attrs.paths && Absolute(op.path) && past.Valid()
    modifies endp.Repr()
    ensures endp.Valid() && endp.Grown() && endp.attrs.Aged()
    ensures AtSite(endp, w.Next(endp.remote.apply, server, Simple(Change(op))))
    ensures Sourced(endp.remote.lookup, endp.remote.state, endp.attrs.bindings, old(endp.attrs.bindings))
    ensures InTime(endp.remote.lookup, endp.remote.apply, server, past, endp.attrs.Ttl(), w, Simple(Change(op)),
              outcome)
  {
    hide CachedEndpoint.Valid, CachedEndpoint.Repr, CachedEndpoint.Taken, DirsKnown, Foreseen, Sourced, Within, Purged;
    hide PurgedBoth, CoherentIn, SameAt, OwnPathOnly, OwnObjectOnly, SlashBlind, RootHarmless, Witnessed;
    ghost var m, d := endp.attrs.bindings, endp.dirs.bindings;
    var rc := endp.Change(op, []);
    LeftByChange(endp.remote.lookup, endp.remote.state, m, endp.attrs.bindings, endp.attrs.Ttl(), endp.attrs.Now(),
      op.path);
    KnownWithin(d, endp.dirs.bindings, endp.attrs.paths);
    ForeseenWithin(d, endp.dirs.bindings, w.cached);
    if rc == 0 && op.OnDirectory() {
      AfterChange(d, endp.dirs.bindings, endp.dirs.Ttl(), endp.dirs.Now(), op.path);
      ForgottenAt(d, endp.dirs.bindings, w, op.path);
    }
    outcome := Told(Code(rc));
  }

  lemma LeftByChange<S, A>(lookup: (S, string) -> Reply<A>, state: S, m: map<string, Binding<A>>,
        m': map<string, Binding<A>>, ttl: nat, t: nat, path: string)
    requires m' == m || Purged(m', m, ttl, t, path, true) ||
      exists base, known :: PurgedBoth(m', m, ttl, t, path, base, known)
    ensures Sourced(lookup, state, m', m)
  {
  }

  lemma ForgottenAt<S>(m: map<string, Binding<string>>, m': map<string, Binding<string>>, w: Site<S>, dir: string)
    requires Foreseen(m, w.cached) && Within(m', m) && dir !in m'
    ensures Foreseen(m', w.Forget(dir).cached)
  {
  }

  method ShareList<S(!new), A(0, !new)>(endp: CachedEndpoint<S, A>, server: Server<S, A>, dir: string,
        answer: seq<DirEntry<A>> -> int, zero: A, ghost w: Site<S>, ghost past: Record<S>) returns (outcome: Outcome<A>)
    requires endp.Valid() && AtSite(endp, w) && dir in endp.attrs.paths && Canonical(dir) && UpToNow(endp, past)
    requires ListsTruly(endp.remote.lookup, server, dir, endp.attrs.paths)
    modifies endp.Repr()
    ensures endp.Valid() && endp.Grown() && endp.attrs.Aged()
    ensures AtSite(endp, w.Next(endp.remote.apply, server, List(dir, answer)))
    ensures Sourced(endp.remote.lookup, endp.remote.state, endp.attrs.bindings, old(endp.attrs.bindings))
    ensures InTime(endp.remote.lookup, endp.remote.apply, server, past, endp.attrs.Ttl(), w, List(dir, answer), outcome)
  {
    hide CachedEndpoint.Valid, CachedEndpoint.Repr, CachedEndpoint.Taken, DirsKnown, Foreseen, Sourced, ListsTruly;
    hide ListedFrom, NamesLeft, Record.AllFresh, Record.Covers, Site.Longer, ListedBy;
    ghost var d, a := endp.dirs.bindings, endp.attrs.bindings;
    ListsTrulyNow(endp.remote.lookup, server, dir, endp.attrs.paths, w.state, zero);
    endp.ReprAllocated();
    var consumer := new Consumer(answer);
    ghost var served, replies;
    served, replies := ListShared(endp, server, dir, zero, consumer);
    ghost var listing := server.list(w.state, dir).0;
    ForeseenListed(d, endp.dirs.bindings, w, dir, listing);
    ListingInTime(endp.remote.lookup, past, w, d, a, endp.attrs.Ttl(), endp.attrs.Now(), dir, listing, answer, served,
      replies, consumer.calls);
    outcome := Listed(consumer.calls);
  }

  lemma ForeseenListed<S, A>(m: map<string, Binding<string>>, m': map<string, Binding<string>>, w: Site<S>, dir: string,
        listing: seq<DirEntry<A>>)
    requires Foreseen(m, w.cached) && NamesLeft(m, m', dir, listing)
    ensures Foreseen(m', w.Relist(dir, Names(listing)).cached)
  {
    hide IsListing;
    forall p | p in m' && IsListing(m'[p].data)
      ensures Cached(p, NamesIn(m'[p].data)) in w.Relist(dir, Names(listing)).cached
    {
      if p != dir {
        assert p in m' - {dir};
      } else if NamesIn(m'[dir].data) != Names(listing) {
        assert Cached(dir, NamesIn(m[dir].data)) in w.cached;
      }
    }
  }

  lemma ListingInTime<S, A(!new)>(lookup: (S, string) -> Reply<A>, past: Record<S>, w: Site<S>,
        m: map<string, Binding<string>>, a: map<string, Binding<A>>, ttl: nat, t: nat, dir: string,
        listing: seq<DirEntry<A>>, answer: seq<DirEntry<A>> -> int, served: bool, replies: seq<Reply<A>>,
        entries: seq<DirEntry<A>>)
    requires Absolute(dir) && past.Valid() && past.Covers(lookup, a) && Foreseen(m, w.cached)
    requires TrueEntries(lookup, w.state, dir, listing)
    requires ListedFrom(lookup, w.state, m, a, ttl, past.clock.reading(past.counts[|past.states|]), t, dir, listing,
               answer, served, replies, entries)
    ensures past.AllFresh(lookup, ttl, w.state, dir, entries)
    ensures entries == Calls(listing, answer, []) ||
      exists names, replies :: ListedBy(w, dir, listing, answer, names, replies, entries)
  {
    hide Record.Covers, Record.Fresh, TrueEntries, Answered, IsListing, PlusCalls, Calls;
    if served {
      var names := NamesIn(m[dir].data);
      forall i | 0 <= i < |names| && replies[i].Found?
        ensures past.Fresh(lookup, ttl, w.state, EntryPath(dir, names[i]), replies[i].attr)
      {
        past.AnsweredFresh(lookup, ttl, w.state, a, t, EntryPath(dir, names[i]), replies[i]);
      }
      past.PlusCallsFresh(lookup, ttl, w.state, dir, names, replies, answer, []);
      past.CallsFresh(lookup, ttl, w.state, dir, listing, answer, PlusCalls(names, replies, answer, []).0);
      assert ListedBy(w, dir, listing, answer, names, replies, entries);
    } else {
      past.CallsFresh(lookup, ttl, w.state, dir, listing, answer, []);
    }
  }

  method ShareCreate<S(!new), A(0, !new)>(endp: CachedEndpoint<S, A>, server: Server<S, A>, handle: nat, path: string,
        ghost w: Site<S>, ghost past: Record<S>) returns (outcome: Outcome<A>, rc: int)
    requires endp.Valid() && AtSite(endp, w) && path in endp.attrs.paths && Absolute(path) && past.Valid()
    modifies endp.Repr()
    ensures endp.Valid() && endp.Grown() && endp.attrs.Aged() && rc == server.create(w.state, path).1
    ensures AtSite(endp, w.Next(endp.remote.apply, server, CreateFile(handle, path)))
    ensures Sourced(endp.remote.lookup, endp.remote.state, endp.attrs.bindings, old(endp.attrs.bindings))
    ensures InTime(endp.remote.lookup, endp.remote.apply, server, past, endp.attrs.Ttl(), w, CreateFile(handle, path),
              outcome)
  {
    hide CachedEndpoint.Valid, CachedEndpoint.Repr, CachedEndpoint.Taken, DirsKnown, Foreseen, Sourced, Within, SameAt;
    hide PurgedBoth, CreatesAt, CoherentIn;
    ghost var m, d := endp.attrs.bindings, endp.dirs.bindings;
    rc := Create(endp, path, CreatingOf(server, path));
    LeftByChange(endp.remote.lookup, endp.remote.state, m, endp.attrs.bindings, endp.attrs.Ttl(), endp.attrs.Now(),
      path);
    if rc == 0 {
      AfterChange(d, endp.dirs.bindings, endp.dirs.Ttl(), endp.dirs.Now(), path);
      KnownWithin(d, endp.dirs.bindings, endp.attrs.paths);
      ForgottenAt(d, endp.dirs.bindings, w, path);
    }
    outcome := Done(rc);
  }

  method ShareWrite<S(!new), A(0, !new)>(endp: CachedEndpoint<S, A>, handles: HandleMap, server: Server<S, A>,
        handle: nat, data: nat, path: string, ghost w: Site<S>, ghost past: Record<S>) returns (outcome: Outcome<A>)
    requires endp.Valid() && AtSite(endp, w) && handle in w.open && w.open[handle] == path && past.Valid()
    requires handles.Valid() && endp.Repr() !! handles.Repr() && Agrees(handles.paths, w.open, endp.attrs.paths)
    modifies endp.Repr()
    ensures endp.Valid() && endp.Grown() && endp.attrs.Aged()
    ensures AtSite(endp, w.Next(endp.remote.apply, server, WriteFile(handle, data)))
    ensures Sourced(endp.remote.lookup, endp.remote.state, endp.attrs.bindings, old(endp.attrs.bindings))
    ensures InTime(endp.remote.lookup, endp.remote.apply, server, past, endp.attrs.Ttl(), w, WriteFile(handle, data),
              outcome)
  {
    hide CachedEndpoint.Valid, CachedEndpoint.Repr, CachedEndpoint.Taken, DirsKnown, Foreseen, Sourced, Within;
    hide WritesAt, CoherentIn, Harmless, HandleMap.Valid;
    ghost var m := endp.attrs.bindings;
    var rc := Write(endp, handles, handle, EffectOf(server, path, data), path);
    WithinSourced(endp.remote.lookup, endp.remote.state, m, endp.attrs.bindings);
    outcome := Done(rc);
  }

  // Opening and closing files.
  method ShareHandles<S, A>(handles: HandleMap, server: Server<S, A>, call: Call<A>, open: map<nat, string>, state: S,
        ghost known: iset<string>) returns (outcome: Outcome<A>, open': map<nat, string>)
    requires handles.Valid() && Agrees(handles.paths, open, known) && (call.OpenFile? || call.CloseFile?)
    requires call.OpenFile? ==> call.path in known
    modifies handles.Repr()
    ensures handles.Valid() && handles.Grown() && Agrees(handles.paths, open', known)
    ensures call.OpenFile? ==>
      && outcome == Done(server.open(state, call.path))
      && open' == if server.open(state, call.path) != 0 then open else open[call.handle := call.path]
    ensures call.CloseFile? ==> outcome == Done(0) && open' == open - {call.handle}
  {
    hide HandleMap.Valid, Lost, EndsChain;
    open' := open;
    match call {
      case OpenFile(h, path) =>
        var rc := server.open(state, path);
        outcome := Done(rc);
        OpenFiles.Open(handles, h, path, rc);
        open' := if rc == 0 then open[h := path] else open;
      case CloseFile(h) =>
        handles.Unregister(h);
        open' := open - {h};
        outcome := Done(0);
    }
  }

  // Opening and closing files does not touch the caches.
  method ShareFiles<S(!new), A(0, !new)>(endp: CachedEndpoint<S, A>, handles: HandleMap, server: Server<S, A>,
        call: Call<A>, open: map<nat, string>, ghost w: Site<S>, ghost past: Record<S>)
      returns (outcome: Outcome<A>, open': map<nat, string>)
    requires endp.Valid() && AtSite(endp, w) && open == w.open && (call.OpenFile? || call.CloseFile?) && past.Valid()
    requires call.OpenFile? ==> call.path in endp.attrs.paths
    requires handles.Valid() && endp.Repr() !! handles.Repr() && Agrees(handles.paths, open, endp.attrs.paths)
    modifies handles.Repr()
    ensures endp.Valid() && handles.Valid() && handles.Grown() && endp.Repr() !! handles.Repr()
    ensures var w' := w.Next(endp.remote.apply, server, call); AtSite(endp, w') && open' == w'.open
    ensures Agrees(handles.paths, open', endp.attrs.paths)
    ensures InTime(endp.remote.lookup, endp.remote.apply, server, past, endp.attrs.Ttl(), w, call, outcome)
  {
    hide CachedEndpoint.Valid, CachedEndpoint.Repr, CachedEndpoint.Taken, DirsKnown, Foreseen, HandleMap.Valid, Agrees;
    ReprKeptApart(endp, handles);
    outcome, open' := ShareHandles(handles, server, call, open, endp.remote.state, endp.attrs.paths);
  }

  // The files that are open after another call.
  lemma OpenAfter<S, A>(apply: (S, Op) -> (S, int), server: Server<S, A>, w: Site<S>, call: Call<A>,
        paths: map<nat, string>, known: iset<string>)
    requires Agrees(paths, w.open, known) && !call.OpenFile? && !call.CloseFile?
    requires call.CreateFile? ==> call.path in known && call.handle !in w.open
    ensures Agrees(paths, w.Next(apply, server, call).open, known)
    ensures w.Next(apply, server, call).open ==
      if call.CreateFile? && server.create(w.state, call.path).1 == 0 then w.open[call.handle := call.path] else w.open
  {
  }

  // One call of a run.
  method Share<S(!new), A(0, !new)>(endp: CachedEndpoint<S, A>, handles: HandleMap, server: Server<S, A>, call: Call<A>,
        open: map<nat, string>, zero: A, ghost w: Site<S>, ghost past: Record<S>)
      returns (outcome: Outcome<A>, open': map<nat, string>)
    requires endp.Valid() && AtSite(endp, w) && UpToNow(endp, past) && open == w.open
    requires Possible(endp.remote.lookup, server, w, call, endp.attrs.paths)
    requires handles.Valid() && endp.Repr() !! handles.Repr() && Agrees(handles.paths, open, endp.attrs.paths)
    modifies endp.Repr(), handles.Repr()
    ensures endp.Valid() && handles.Valid() && endp.Grown() && handles.Grown() && endp.Repr() !! handles.Repr()
    ensures var w' := w.Next(endp.remote.apply, server, call);
      AtSite(endp, w') && open' == w'.open && Agrees(handles.paths, open', endp.attrs.paths)
    ensures UpToNow(endp, past.Onward(endp.attrs.Count(), endp.remote.state))
    ensures InTime(endp.remote.lookup, endp.remote.apply, server, past, endp.attrs.Ttl(), w, call, outcome)
  {
    hide CachedEndpoint.Valid, CachedEndpoint.Repr, CachedEndpoint.Taken, DirsKnown, Foreseen, HandleMap.Valid;
    hide Record.Covers, Record.Fresh, Record.AllFresh, Sourced, ListsTruly, Site.Next, InTime, AtSite, Agrees;
    ReprKeptApart(endp, handles);
    AgreesOpen(handles.paths, open, endp.attrs.paths);
    ghost var m := endp.attrs.bindings;
    open' := open;
    if !call.OpenFile? && !call.CloseFile? {
      OpenAfter(endp.remote.apply, server, w, call, handles.paths, endp.attrs.paths);
    }
    match call {
      case Simple(request) =>
        if request.Stat? {
          outcome := ShareStat(endp, server, request.path, w, past);
        } else {
          outcome := ShareChange(endp, server, request.op, w, past);
        }
      case List(dir, answer) =>
        outcome := ShareList(endp, server, dir, answer, zero, w, past);
      case CreateFile(h, path) =>
        var rc;
        outcome, rc := ShareCreate(endp, server, h, path, w, past);
        open' := if rc == 0 then open[h := path] else open;
      case WriteFile(h, data) =>
        outcome := ShareWrite(endp, handles, server, h, data, open[h], w, past);
      case _ =>
        SameSourced(endp.remote.lookup, endp.remote.state, m);
        outcome, open' := ShareFiles(endp, handles, server, call, open, w, past);
    }
    endp.ClockShows(0);
    endp.BoundInThePast();
    past.CoversOnward(endp.remote.lookup, m, endp.attrs.bindings, endp.attrs.Count(), endp.remote.state);
  }

  lemma AgreesOpen(paths: map<nat, string>, open: map<nat, string>, known: iset<string>)
    requires Agrees(paths, open, known)
    ensures forall h :: h in open ==> open[h] in known
  {
  }

  lemma SameSourced<S, A>(lookup: (S, string) -> Reply<A>, state: S, m: map<string, Binding<A>>)
    ensures Sourced(lookup, state, m, m)
  {
  }

  /** The outcomes so far are in time. */
  ghost predicate AllInTime<S, A(!new)>(lookup: (S, string) -> Reply<A>, apply: (S, Op) -> (S, int),
        server: Server<S, A>, state: S, calls: seq<Call<A>>, outside: seq<S -> S>, clock: Clock, counts: seq<nat>,
        ttl: nat, outcomes: seq<Outcome<A>>)
    requires |counts| == |outcomes| + 1 <= |calls| + 1 && |outside| == |calls|
  {
    && (forall i, j :: 0 <= i <= j < |counts| ==> counts[i] <= counts[j])
    && forall i :: 0 <= i < |outcomes| ==>
         InTimeAt(lookup, apply, server, state, calls, outside, clock, counts, ttl, i, outcomes[i])
  }

  /** The outcome of call `i` is in time. */
  ghost predicate InTimeAt<S, A(!new)>(lookup: (S, string) -> Reply<A>, apply: (S, Op) -> (S, int),
        server: Server<S, A>, state: S, calls: seq<Call<A>>, outside: seq<S -> S>, clock: Clock, counts: seq<nat>,
        ttl: nat, i: nat, outcome: Outcome<A>)
    requires i < |counts| && i < |calls| == |outside| && |counts| <= |calls| + 1
  {
    var past := RecordAt(apply, server, state, calls, outside, clock, counts, i);
    var before := SiteAt(apply, server, state, calls, outside, i).Disturbed(outside[i]);
    past.Valid() && InTime(lookup, apply, server, past, ttl, before, calls[i], outcome)
  }

  lemma OneMoreInTime<S, A(!new)>(lookup: (S, string) -> Reply<A>, apply: (S, Op) -> (S, int), server: Server<S, A>,
        state: S, calls: seq<Call<A>>, outside: seq<S -> S>, clock: Clock, counts: seq<nat>, ttl: nat,
        outcomes: seq<Outcome<A>>, count: nat, outcome: Outcome<A>)
    requires |counts| == |outcomes| + 1 <= |calls| == |outside|
    requires AllInTime(lookup, apply, server, state, calls, outside, clock, counts, ttl, outcomes)
    requires InTimeAt(lookup, apply, server, state, calls, outside, clock, counts, ttl, |outcomes|, outcome)
    requires counts[|outcomes|] <= count
    ensures AllInTime(lookup, apply, server, state, calls, outside, clock, counts + [count], ttl, outcomes + [outcome])
    ensures var i, counts' := |outcomes|, counts + [count];
      RecordAt(apply, server, state, calls, outside, clock, counts', i + 1) ==
        RecordAt(apply, server, state, calls, outside, clock, counts, i).Onward(count,
          SiteAt(apply, server, state, calls, outside, i + 1).state)
  {
    hide InTime, SiteAt;
    var counts', outcomes' := counts + [count], outcomes + [outcome];
    forall i | 0 <= i < |outcomes'|
      ensures InTimeAt(lookup, apply, server, state, calls, outside, clock, counts', ttl, i, outcomes'[i])
    {
      assert counts'[..i + 1] == counts[..i + 1];
      assert i < |outcomes| ==>
        InTimeAt(lookup, apply, server, state, calls, outside, clock, counts, ttl, i, outcomes[i]);
    }
    assert counts'[..|outcomes| + 2] == counts[..|outcomes| + 1] + [count];
  }

  // Others change the remote; the caches, the record and the handles stay.
  method OthersAtWork<S(!new), A(0, !new)>(endp: CachedEndpoint<S, A>, handles: HandleMap, writer: S -> S,
        ghost w: Site<S>, ghost past: Record<S>)
    requires endp.Valid() && AtSite(endp, w) && UpToNow(endp, past)
    requires handles.Valid() && endp.Repr() !! handles.Repr()
    modifies endp.Repr()
    ensures endp.Valid() && endp.Grown() && AtSite(endp, w.Disturbed(writer)) && UpToNow(endp, past) && past.Valid()
    ensures endp.Repr() == old(endp.Repr()) && endp.attrs.Still() && past.counts[|past.states|] == endp.attrs.Count()
    ensures handles.Valid() && handles.Grown() && handles.Repr() == old(handles.Repr())
    ensures handles.paths == old(handles.paths)
  {
    hide CachedEndpoint.Valid, CachedEndpoint.Repr, CachedEndpoint.Taken, DirsKnown, Foreseen, HandleMap.Valid;
    hide Record.Covers;
    ReprKeptApart(endp, handles);
    endp.LetOthersWork(writer);
  }

  lemma StartAmongOthers<S(!new), A(0, !new)>(endp: CachedEndpoint<S, A>, handles: HandleMap, server: Server<S, A>,
        calls: seq<Call<A>>, outside: seq<S -> S>, w: Site<S>, past: Record<S>)
    requires endp.Taken() == map[] && endp.attrs.bindings == map[] && endp.dirs.bindings == map[]
    requires handles.paths == map[] && w == Site(endp.remote.state, map[], iset{}) && |outside| == |calls|
    requires past == Record(endp.attrs.cache.list.clock, [endp.attrs.Count()], [])
    ensures AtSite(endp, w) && UpToNow(endp, past) && Agrees(handles.paths, w.open, endp.attrs.paths)
    ensures w == SiteAt(endp.remote.apply, server, endp.remote.state, calls, outside, 0)
    ensures past == RecordAt(endp.remote.apply, server, endp.remote.state, calls, outside, past.clock, past.counts, 0)
    ensures AllInTime(endp.remote.lookup, endp.remote.apply, server, endp.remote.state, calls, outside, past.clock,
              past.counts, endp.attrs.Ttl(), [])
  {
  }

  lemma SiteOnward<S, A>(apply: (S, Op) -> (S, int), server: Server<S, A>, state: S, calls: seq<Call<A>>,
        outside: seq<S -> S>, n: nat)
    requires n < |calls| == |outside|
    ensures SiteAt(apply, server, state, calls, outside, n + 1) ==
      SiteAt(apply, server, state, calls, outside, n).Disturbed(outside[n]).Next(apply, server, calls[n])
  {
  }

  lemma NowAt<S(!new), A(0, !new)>(endp: CachedEndpoint<S, A>, w: Site<S>, past: Record<S>)
    requires AtSite(endp, w) && UpToNow(endp, past.Onward(endp.attrs.Count(), endp.remote.state)) && past.Valid()
    ensures endp.remote.state == w.state && past.counts[|past.states|] <= endp.attrs.Count()
  {
    var after := past.Onward(endp.attrs.Count(), endp.remote.state);
    assert after.counts[|past.states|] <= after.counts[|past.states| + 1];
  }

  /** Every run of getattr, changes, listings with attributes, and creating, opening, writing and closing
      files while others change the remote at will before every call: whatever attributes are answered or
      handed out, also those that a listing brought into the cache, the remote held them no longer than the
      time to live before. */
  method RunAmongOthers<S(!new), A(0, !new)>(endp: CachedEndpoint<S, A>, handles: HandleMap, server: Server<S, A>,
        calls: seq<Call<A>>, outside: seq<S -> S>, zero: A) returns (outcomes: seq<Outcome<A>>, ghost counts: seq<nat>)
    requires endp.Valid() && endp.Taken() == map[] && endp.attrs.bindings == map[] && endp.dirs.bindings == map[]
    requires handles.Valid() && handles.paths == map[] && endp.Repr() !! handles.Repr() && |outside| == |calls|
    requires forall i :: 0 <= i < |calls| ==>
      Possible(endp.remote.lookup, server,
        SiteAt(endp.remote.apply, server, endp.remote.state, calls, outside, i).Disturbed(outside[i]), calls[i],
        endp.attrs.paths)
    modifies endp.Repr(), handles.Repr()
    ensures endp.Valid() && |outcomes| == |calls| && |counts| == |calls| + 1
    ensures counts[0] == old(endp.attrs.Count()) && counts[|calls|] == endp.attrs.Count()
    ensures endp.remote.state ==
      SiteAt(endp.remote.apply, server, old(endp.remote.state), calls, outside, |calls|).state
    ensures AllInTime(endp.remote.lookup, endp.remote.apply, server, old(endp.remote.state), calls, outside,
              endp.attrs.cache.list.clock, counts, endp.attrs.Ttl(), outcomes)
  {
    hide CachedEndpoint.Valid, CachedEndpoint.Repr, CachedEndpoint.Taken, HandleMap.Valid, HandleMap.Repr;
    hide AtSite, UpToNow, Agrees, Possible, InTime, AllInTime, SiteAt, RecordAt, Site.Next;
    ghost var lookup, apply, s0, known := endp.remote.lookup, endp.remote.apply, endp.remote.state, endp.attrs.paths;
    ghost var clock, ttl := endp.attrs.cache.list.clock, endp.attrs.Ttl();
    ghost var w: Site<S>, past: Record<S> := Site(s0, map[], iset{}), Record(clock, [endp.attrs.Count()], []);
    var open: map<nat, string> := map[];
    outcomes, counts := [], [endp.attrs.Count()];
    StartAmongOthers(endp, handles, server, calls, outside, w, past);
    var i := 0;
    while i < |calls|
      invariant 0 <= i <= |calls| && |outcomes| == i && |counts| == i + 1
      invariant counts[0] == old(endp.attrs.Count()) && counts[i] == endp.attrs.Count()
      invariant w == SiteAt(apply, server, s0, calls, outside, i) && open == w.open && endp.remote.state == w.state
      invariant past == RecordAt(apply, server, s0, calls, outside, clock, counts, i) && UpToNow(endp, past)
      invariant endp.Valid() && AtSite(endp, w) && endp.Grown() && handles.Grown()
      invariant handles.Valid() && endp.Repr() !! handles.Repr() && Agrees(handles.paths, open, known)
      invariant AllInTime(lookup, apply, server, s0, calls, outside, clock, counts, ttl, outcomes)
    {
      OthersAtWork(endp, handles, outside[i], w, past);
      ghost var before, count := w.Disturbed(outside[i]), endp.attrs.Count();
      var outcome;
      outcome, open := Share(endp, handles, server, calls[i], open, zero, before, past);
      SiteOnward(apply, server, s0, calls, outside, i);
      NowAt(endp, before.Next(apply, server, calls[i]), past);
      OneMoreInTime(lookup, apply, server, s0, calls, outside, clock, counts, ttl, outcomes, endp.attrs.Count(),
        outcome);
      w, past := before.Next(apply, server, calls[i]), past.Onward(endp.attrs.Count(), endp.remote.state);
      outcomes, counts := outcomes + [outcome], counts + [endp.attrs.Count()];
      i := i + 1;
    }
  }

  /** Names that may be cached for a directory were all listed for it by the remote, in some earlier call. */
  lemma {:induction false} CachedWereListed<S, A>(apply: (S, Op) -> (S, int), server: Server<S, A>, state: S,
        calls: seq<Call<A>>, outside: seq<S -> S>, n: nat, c: Cached)
    requires n <= |calls| == |outside| && c in SiteAt(apply, server, state, calls, outside, n).cached
    ensures exists j :: 0 <= j < n && calls[j].List? && calls[j].dir == c.dir
    ensures forall x :: x in c.names ==> exists j ::
      && 0 <= j < n && calls[j].List? && calls[j].dir == c.dir
      && x in Names(server.list(outside[j](SiteAt(apply, server, state, calls, outside, j).state), c.dir).0)
  {
    if n > 0 {
      var before := SiteAt(apply, server, state, calls, outside, n - 1);
      if c in before.cached {
        CachedWereListed(apply, server, state, calls, outside, n - 1, c);
      } else {
        var names := Names(server.list(outside[n - 1](before.state), c.dir).0);
        assert calls[n - 1].List? && calls[n - 1].dir == c.dir;
        if c.names != names {
          var rest :| Cached(c.dir, rest) in before.cached && c.names == rest + names;
          CachedWereListed(apply, server, state, calls, outside, n - 1, Cached(c.dir, rest));
        }
      }
    }
  }

  /** Every name that is handed out was listed for the directory by the remote, in this call or in an earlier
      one; and if there was none, what is handed out is the remote's listing. */
  lemma NamesWereListed<S, A(!new)>(lookup: (S, string) -> Reply<A>, apply: (S, Op) -> (S, int), server: Server<S, A>,
        state: S, calls: seq<Call<A>>, outside: seq<S -> S>, clock: Clock, counts: seq<nat>, ttl: nat,
        outcomes: seq<Outcome<A>>, i: nat)
    requires i < |outcomes| < |counts| == |outcomes| + 1 <= |calls| + 1 && |outside| == |calls| && calls[i].List?
    requires AllInTime(lookup, apply, server, state, calls, outside, clock, counts, ttl, outcomes)
    ensures outcomes[i].Listed?
    ensures forall k :: 0 <= k < |outcomes[i].entries| ==> exists j ::
      && 0 <= j <= i && calls[j].List? && calls[j].dir == calls[i].dir
      && outcomes[i].entries[k].name in
           Names(server.list(outside[j](SiteAt(apply, server, state, calls, outside, j).state), calls[i].dir).0)
    ensures (forall j :: 0 <= j < i ==> !(calls[j].List? && calls[j].dir == calls[i].dir)) ==>
      var now := outside[i](SiteAt(apply, server, state, calls, outside, i).state);
      outcomes[i].entries == Calls(server.list(now, calls[i].dir).0, calls[i].answer, [])
  {
    hide SiteAt, Calls, PlusCalls, Record.Fresh;
    assert InTimeAt(lookup, apply, server, state, calls, outside, clock, counts, ttl, i, outcomes[i]);
    var w := SiteAt(apply, server, state, calls, outside, i).Disturbed(outside[i]);
    var dir, answer, entries := calls[i].dir, calls[i].answer, outcomes[i].entries;
    var listing := server.list(w.state, dir).0;
    if entries == Calls(listing, answer, []) {
      CallsNames(listing, answer, []);
    } else {
      var names, replies :| ListedBy(w, dir, listing, answer, names, replies, entries);
      CachedWereListed(apply, server, state, calls, outside, i, Cached(dir, names));
      var made := PlusCalls(names, replies, answer, []).0;
      PlusCallsNames(names, replies, answer);
      CallsNames(listing, answer, made);
    }
  }

  // What is handed on has the names that it is taken from.
  lemma CallsNames<A>(entries: seq<DirEntry<A>>, answer: seq<DirEntry<A>> -> int, made: seq<DirEntry<A>>)
    ensures forall e :: e in Calls(entries, answer, made) ==> e in made || e.name in Names(entries)
  {
    var n := CallsMade(entries, answer, made);
    forall e | e in entries[..n] ensures e.name in Names(entries) {
      var k :| 0 <= k < n && entries[k] == e;
      assert Names(entries)[k] == e.name;
    }
  }

  lemma PlusCallsNames<A>(names: seq<string>, replies: seq<Reply<A>>, answer: seq<DirEntry<A>> -> int)
    requires |names| == |replies|
    ensures forall e :: e in PlusCalls(names, replies, answer, []).0 ==> e.name in names
  {
    var n := PlusMade(names, replies, answer, []);
    assert [] + Handed(names, replies, n) == Handed(names, replies, n);
  }

  lemma FreshSince<S, A(!new)>(lookup: (S, string) -> Reply<A>, apply: (S, Op) -> (S, int), server: Server<S, A>,
        state: S, calls: seq<Call<A>>, outside: seq<S -> S>, clock: Clock, counts: seq<nat>, ttl: nat, i: nat, now: S,
        path: string, attr: A)
    requires i < |counts| <= |calls| + 1 && |outside| == |calls|
    requires var past := RecordAt(apply, server, state, calls, outside, clock, counts, i);
      past.Valid() && past.Fresh(lookup, ttl, now, path, attr)
    ensures lookup(now, path) == Found(attr) || exists j ::
      && 0 < j <= i && clock.reading(counts[i]) <= clock.LastBefore(counts[j]) + ttl
      && lookup(SiteAt(apply, server, state, calls, outside, j).state, path) == Found(attr)
  {
    hide SiteAt;
    var past := RecordAt(apply, server, state, calls, outside, clock, counts, i);
    if lookup(now, path) != Found(attr) {
      var j :|
        && 0 <= j < |past.states| && lookup(past.states[j], path) == Found(attr)
        && clock.reading(past.counts[|past.states|]) <= clock.LastBefore(past.counts[j + 1]) + ttl;
      assert past.states[j] == SiteAt(apply, server, state, calls, outside, j + 1).state;
      assert counts[j + 1] == past.counts[j + 1];
    }
  }

  /** Outcomes in time, call by call: others work, the call is told from the state and the open files as they
      are then, and attributes that are not the remote's by then were so after an earlier call, not more
      than `ttl` before the clock was next read. */
  lemma StepInTime<S, A(!new)>(lookup: (S, string) -> Reply<A>, apply: (S, Op) -> (S, int), server: Server<S, A>,
        state: S, calls: seq<Call<A>>, outside: seq<S -> S>, clock: Clock, counts: seq<nat>, ttl: nat,
        outcomes: seq<Outcome<A>>, i: nat)
    requires i < |outcomes| < |counts| == |outcomes| + 1 <= |calls| + 1 && |outside| == |calls|
    requires AllInTime(lookup, apply, server, state, calls, outside, clock, counts, ttl, outcomes)
    ensures var start := SiteAt(apply, server, state, calls, outside, 0); start.state == state && start.open == map[]
    ensures counts[i] <= counts[i + 1]
    ensures var before, after := SiteAt(apply, server, state, calls, outside, i),
        SiteAt(apply, server, state, calls, outside, i + 1);
      var s, s', open, open', outcome := outside[i](before.state), after.state, before.open, after.open, outcomes[i];
      match calls[i]
      case Simple(Stat(path)) =>
        && s' == s && open' == open && outcome.Told? && outcome.answer.Attr?
        && (outcome.answer.reply == lookup(s, path) ||
            (outcome.answer.reply.Found? && exists j ::
               && 0 < j <= i && clock.reading(counts[i]) <= clock.LastBefore(counts[j]) + ttl
               && lookup(SiteAt(apply, server, state, calls, outside, j).state, path) == outcome.answer.reply))
      case Simple(Change(op)) => outcome == Told(Code(apply(s, op).1)) && s' == apply(s, op).0 && open' == open
      case List(dir, answer) =>
        && outcome.Listed? && Absolute(dir) && s' == s && open' == open
        && forall k :: 0 <= k < |outcome.entries| ==>
             var path, attr := EntryPath(dir, outcome.entries[k].name), outcome.entries[k].stat;
             lookup(s, path) == Found(attr) || exists j ::
               && 0 < j <= i && clock.reading(counts[i]) <= clock.LastBefore(counts[j]) + ttl
               && lookup(SiteAt(apply, server, state, calls, outside, j).state, path) == Found(attr)
      case CreateFile(h, path) =>
        var (made, rc) := server.create(s, path);
        outcome == Done(rc) && s' == made && open' == if rc == 0 then open[h := path] else open
      case OpenFile(h, path) =>
        var rc := server.open(s, path);
        outcome == Done(rc) && s' == s && open' == if rc == 0 then open[h := path] else open
      case WriteFile(h, data) =>
        && h in open && open' == open
        && s' == server.write(s, open[h], data).0 && outcome == Done(server.write(s, open[h], data).1)
      case CloseFile(h) => outcome == Done(0) && s' == s && open' == open - {h}
  {
    hide ListedBy, EntryPath, Site.Longer;
    var past := RecordAt(apply, server, state, calls, outside, clock, counts, i);
    assert InTimeAt(lookup, apply, server, state, calls, outside, clock, counts, ttl, i, outcomes[i]);
    SiteOnward(apply, server, state, calls, outside, i);
    var now := outside[i](SiteAt(apply, server, state, calls, outside, i).state);
    forall path, attr | past.Fresh(lookup, ttl, now, path, attr)
      ensures lookup(now, path) == Found(attr) || exists j ::
        && 0 < j <= i && clock.reading(counts[i]) <= clock.LastBefore(counts[j]) + ttl
        && lookup(SiteAt(apply, server, state, calls, outside, j).state, path) == Found(attr)
    {
      FreshSince(lookup, apply, server, state, calls, outside, clock, counts, ttl, i, now, path, attr);
    }
  }

  /** How sharp this is: if no two readings of the clock up to the next are within the time to live, all
      attributes of a call are what the remote says at that moment. */
  lemma CurrentCallIfSlow<S, A(!new)>(lookup: (S, string) -> Reply<A>, apply: (S, Op) -> (S, int), server: Server<S, A>,
        state: S, calls: seq<Call<A>>, outside: seq<S -> S>, clock: Clock, counts: seq<nat>, ttl: nat,
        outcomes: seq<Outcome<A>>, i: nat)
    requires i < |outcomes| < |counts| == |outcomes| + 1 <= |calls| + 1 && |outside| == |calls|
    requires AllInTime(lookup, apply, server, state, calls, outside, clock, counts, ttl, outcomes)
    requires forall j: nat, k: nat :: j < k <= counts[i] + 1 ==> clock.LastBefore(j) + ttl < clock.LastBefore(k)
    ensures var now := SiteAt(apply, server, state, calls, outside, i).Disturbed(outside[i]).state;
      && (calls[i].Simple? && calls[i].request.Stat? ==>
            outcomes[i] == Told(Attr(lookup(now, calls[i].request.path))))
      && (calls[i].List? ==>
            outcomes[i].Listed? && Absolute(calls[i].dir)
            && forall k :: 0 <= k < |outcomes[i].entries| ==>
                 var path := EntryPath(calls[i].dir, outcomes[i].entries[k].name);
                 lookup(now, path) == Found(outcomes[i].entries[k].stat))
  {
    hide SiteAt, EntryPath;
    var past := RecordAt(apply, server, state, calls, outside, clock, counts, i);
    var now := SiteAt(apply, server, state, calls, outside, i).Disturbed(outside[i]).state;
    assert InTimeAt(lookup, apply, server, state, calls, outside, clock, counts, ttl, i, outcomes[i]);
    forall path, attr | past.Fresh(lookup, ttl, now, path, attr) ensures lookup(now, path) == Found(attr) {
      FreshIfSlow(past, lookup, ttl, now, path, attr);
    }
  }

  lemma FreshIfSlow<S, A>(past: Record<S>, lookup: (S, string) -> Reply<A>, ttl: nat, now: S, path: string, attr: A)
    requires past.Valid() && past.Fresh(lookup, ttl, now, path, attr)
    requires forall j: nat, k: nat :: j < k <= past.counts[|past.states|] + 1 ==>
      past.clock.LastBefore(j) + ttl < past.clock.LastBefore(k)
    ensures lookup(now, path) == Found(attr)
  {
    var n := past.counts[|past.states|];
    assert past.clock.LastBefore(n + 1) == past.clock.reading(n);
  }
}
