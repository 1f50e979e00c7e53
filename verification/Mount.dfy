/** Whole runs of a mounted file system: attributes, changes, listings with attributes, and creating,
    opening, writing and closing files, all over the same caches. */
module Mounts {
  import opened CacheStates
  import opened FileCaches
  import opened Paths
  import opened PathBuffers
  import opened HandleMaps
  import opened Endpoints
  import opened OpenFiles
  import opened Readdirs

  /** What the remote does beyond Remote: it lists directories, lets files be opened, creates them, and
      writes to them. */
  datatype Server<!S, !A> = Server(list: (S, string) -> (seq<DirEntry<A>>, int), open: (S, string) -> int,
                                   create: (S, string) -> (S, int), write: (S, string, nat) -> (S, int))

  datatype Call<!A> =
    | Simple(request: Request)
    | List(dir: string, answer: seq<DirEntry<A>> -> int)
    | CreateFile(handle: nat, path: string)
    | OpenFile(handle: nat, path: string)
    | WriteFile(handle: nat, data: nat)
    | CloseFile(handle: nat)

  datatype Outcome<A> = Told(answer: Answer<A>) | Listed(entries: seq<DirEntry<A>>) | Done(rc: int)

  /** Every entry comes with the attributes that the remote holds at its path. */
  ghost predicate TrueEntries<S, A>(lookup: (S, string) -> Reply<A>, state: S, path: string, entries: seq<DirEntry<A>>)
    requires Absolute(path)
  {
    forall i :: 0 <= i < |entries| ==> lookup(state, EntryPath(path, entries[i].name)) == Found(entries[i].stat)
  }

  /** What the remote says about these entries of a directory. */
  ghost function Lookups<S, A>(lookup: (S, string) -> Reply<A>, state: S, dir: string,
        names: seq<string>): (r: seq<Reply<A>>)
    requires Absolute(dir)
    ensures |r| == |names| && forall i :: 0 <= i < |r| ==> r[i] == lookup(state, EntryPath(dir, names[i]))
  {
    seq(|names|, i requires 0 <= i < |names| => lookup(state, EntryPath(dir, names[i])))
  }

  /** What is handed out if these names are cached for the directory, and whether the remote's listing
      was not needed: each name with what the remote says about it, and where one is gone the listing. */
  ghost function Served<S, A>(lookup: (S, string) -> Reply<A>, state: S, dir: string, names: seq<string>,
        listing: seq<DirEntry<A>>, answer: seq<DirEntry<A>> -> int): (seq<DirEntry<A>>, bool)
    requires Absolute(dir)
  {
    var (made, whole) := PlusCalls(names, Lookups(lookup, state, dir, names), answer, []);
    (if whole then made else Calls(listing, answer, made), whole)
  }

  /** If the cached names are those of the remote's listing, what is handed out is that listing. */
  lemma ServedWhole<S, A>(lookup: (S, string) -> Reply<A>, state: S, dir: string, listing: seq<DirEntry<A>>,
        answer: seq<DirEntry<A>> -> int)
    requires Absolute(dir) && TrueEntries(lookup, state, dir, listing)
    ensures Served(lookup, state, dir, Names(listing), listing, answer) == (Calls(listing, answer, []), true)
  {
    var names, replies := Names(listing), Lookups(lookup, state, dir, Names(listing));
    assert forall i :: 0 <= i < |replies| ==> replies[i] == Found(listing[i].stat);
    PlusAllFound(names, replies, answer, []);
    assert Handed(names, replies, |names|) == listing;
  }

  /** These names are cached for the directory after it was listed while `names` were. */
  ghost predicate HeldAfter<S, A>(lookup: (S, string) -> Reply<A>, state: S, dir: string, names: seq<string>,
        listing: seq<DirEntry<A>>, answer: seq<DirEntry<A>> -> int, names': seq<string>)
    requires Absolute(dir)
  {
    names' == if Served(lookup, state, dir, names, listing, answer).1 then names else names + Names(listing)
  }

  /** Names that may be cached for a directory. */
  datatype Cached = Cached(dir: string, names: seq<string>)

  /** What may be cached for the directory after it was listed. */
  ghost predicate MayHold<S, A>(lookup: (S, string) -> Reply<A>, state: S, dir: string, cached: iset<Cached>,
        listing: seq<DirEntry<A>>, answer: seq<DirEntry<A>> -> int, names': seq<string>)
    requires Absolute(dir)
  {
    || names' == Names(listing)
    || exists names :: Cached(dir, names) in cached && HeldAfter(lookup, state, dir, names, listing, answer, names')
  }

  /** Where a run has come to, as far as the calls tell: the state of the remote, the files it has open,
      the handles that are registered for certain, and the listings that may be cached. Opening a file
      leaves the other handles registered; closing one, or opening its handle anew, may take others along,
      and creating a file does not register its handle. */
  datatype World<S> = World(state: S, open: map<nat, string>, sure: map<nat, string>, cached: iset<Cached>) {
    ghost function Next<A>(lookup: (S, string) -> Reply<A>, apply: (S, Op) -> (S, int), server: Server<S, A>,
          call: Call<A>): World<S>
    {
      match call
      case Simple(request) =>
        var next := this.(state := StateAfter(apply, state, request));
        if request.Change? && request.op.OnDirectory() && apply(state, request.op).1 == 0
        then next.Forget(request.op.path) else next
      case List(dir, answer) => if Absolute(dir) then Relist(lookup, dir, server.list(state, dir).0, answer) else this
      case CreateFile(h, path) =>
        var next := this.(state := server.create(state, path).0);
        if server.create(state, path).1 == 0 then next.(open := open[h := path]).Forget(path) else next
      case OpenFile(h, path) =>
        if server.open(state, path) != 0 then this
        else this.(open := open[h := path], sure := (if h in open then map[] else sure)[h := path])
      case WriteFile(h, data) => if h in open then this.(state := server.write(state, open[h], data).0) else this
      case CloseFile(h) => this.(open := open - {h}, sure := if h in open then map[] else sure)
    }

    /** Nothing is cached for this directory. */
    ghost function Forget(dir: string): World<S> {
      this.(cached := iset c | c in cached && c.dir != dir)
    }

    ghost function Relist<A>(lookup: (S, string) -> Reply<A>, dir: string, listing: seq<DirEntry<A>>,
          answer: seq<DirEntry<A>> -> int): World<S>
      requires Absolute(dir)
    {
      this.(cached := iset c: Cached |
        if c.dir == dir then MayHold(lookup, state, dir, cached, listing, answer, c.names) else c in cached)
    }
  }

  ghost function WorldAt<S, A>(lookup: (S, string) -> Reply<A>, apply: (S, Op) -> (S, int), server: Server<S, A>,
        state: S, calls: seq<Call<A>>, n: nat): World<S>
    requires n <= |calls|
  {
    if n == 0 then World(state, map[], map[], iset{})
    else WorldAt(lookup, apply, server, state, calls, n - 1).Next(lookup, apply, server, calls[n - 1])
  }

  /** The remote lists of every directory but the root what it holds; writing to a file and creating one
      change what is at its path only, and opening one nothing. */
  ghost predicate Sound<S(!new), A(!new)>(lookup: (S, string) -> Reply<A>, apply: (S, Op) -> (S, int),
        server: Server<S, A>, paths: iset<string>)
  {
    && OwnPathOnly(lookup, apply, paths)
    && (forall s, p {:trigger server.list(s, p)} :: p in paths && Canonical(p) && p != "/" ==>
          Listable(p, server.list(s, p).0, paths) && TrueEntries(lookup, s, p, server.list(s, p).0))
    && (forall p {:trigger CreatingOf(server, p)} :: p in paths ==> CreatesAt(lookup, CreatingOf(server, p), p, paths))
    && (forall p, data {:trigger EffectOf(server, p, data)} :: p in paths ==>
          WritesAt(lookup, EffectOf(server, p, data), p, paths))
  }

  function EffectOf<S, A>(server: Server<S, A>, path: string, data: nat): S -> (S, int) {
    s => server.write(s, path, data)
  }

  function CreatingOf<S, A>(server: Server<S, A>, path: string): S -> (S, int) {
    s => server.create(s, path)
  }

  /** A call that can be made: about paths in use, with the handles that the remote gave out. The root is
      not listed: its entries are looked up at paths that changes do not reach. */
  ghost predicate Callable<S, A>(w: World<S>, call: Call<A>, paths: iset<string>) {
    match call
    case Simple(request) => request.Path() in paths && Absolute(request.Path())
    case List(dir, _) => dir in paths && Canonical(dir) && dir != "/"
    case CreateFile(h, path) => path in paths && Absolute(path) && h !in w.open
    case OpenFile(_, path) => path in paths
    case WriteFile(h, _) => h in w.open
    case CloseFile(_) => true
  }

  /** What a listing may hand out: the remote's listing, or what is served from names that may be cached. */
  ghost predicate HandedOut<S, A>(lookup: (S, string) -> Reply<A>, w: World<S>, dir: string, listing: seq<DirEntry<A>>,
        answer: seq<DirEntry<A>> -> int, entries: seq<DirEntry<A>>)
    requires Absolute(dir)
  {
    || entries == Calls(listing, answer, [])
    || exists names ::
         Cached(dir, names) in w.cached && entries == Served(lookup, w.state, dir, names, listing, answer).0
  }

  /** The outcome is the remote's own, and a listing hands out what the remote holds. */
  ghost predicate Right<S, A>(lookup: (S, string) -> Reply<A>, apply: (S, Op) -> (S, int), server: Server<S, A>,
        w: World<S>, call: Call<A>, outcome: Outcome<A>)
  {
    match call
    case Simple(request) => outcome == Told(BareAnswer(lookup, apply, w.state, request))
    case List(dir, answer) =>
      && outcome.Listed? && Absolute(dir) && TrueEntries(lookup, w.state, dir, outcome.entries)
      && HandedOut(lookup, w, dir, server.list(w.state, dir).0, answer, outcome.entries)
    case CreateFile(_, path) => outcome == Done(server.create(w.state, path).1)
    case OpenFile(_, path) => outcome == Done(server.open(w.state, path))
    case WriteFile(h, data) => h in w.open && outcome == Done(server.write(w.state, w.open[h], data).1)
    case CloseFile(_) => outcome == Done(0)
  }

  /** As long as a directory's names stay the same, nothing else can be cached for it. */
  lemma {:induction false} OnlySameNames<S(!new), A(!new)>(lookup: (S, string) -> Reply<A>, apply: (S, Op) -> (S, int),
        server: Server<S, A>, paths: iset<string>, state: S, calls: seq<Call<A>>, n: nat, dir: string,
        names: seq<string>)
    requires n <= |calls| && Sound(lookup, apply, server, paths) && dir in paths && Canonical(dir) && dir != "/"
    requires forall k :: 0 <= k <= n ==>
      Names(server.list(WorldAt(lookup, apply, server, state, calls, k).state, dir).0) == names
    ensures forall c :: c in WorldAt(lookup, apply, server, state, calls, n).cached && c.dir == dir ==> c.names == names
  {
    hide MayHold, TrueEntries, Listable, OwnPathOnly, CreatesAt, WritesAt, Names;
    if n > 0 {
      OnlySameNames(lookup, apply, server, paths, state, calls, n - 1, dir, names);
      var w, call := WorldAt(lookup, apply, server, state, calls, n - 1), calls[n - 1];
      if call.List? && call.dir == dir {
        HoldsSame(lookup, w.state, dir, w.cached, server.list(w.state, dir).0, call.answer, names);
      }
    }
  }

  // Listing a directory while nothing but the remote's own names may be cached leaves it so.
  lemma HoldsSame<S, A>(lookup: (S, string) -> Reply<A>, state: S, dir: string, cached: iset<Cached>,
        listing: seq<DirEntry<A>>, answer: seq<DirEntry<A>> -> int, names: seq<string>)
    requires Absolute(dir) && TrueEntries(lookup, state, dir, listing) && Names(listing) == names
    requires forall c :: c in cached && c.dir == dir ==> c.names == names
    ensures forall names' :: MayHold(lookup, state, dir, cached, listing, answer, names') ==> names' == names
  {
    hide Served, Calls, TrueEntries, Names;
    ServedWhole(lookup, state, dir, listing, answer);
    forall names' | MayHold(lookup, state, dir, cached, listing, answer, names') ensures names' == names {
    }
  }

  /** A directory whose names have not changed since the run began is listed as by the remote, entry by
      entry, whatever else has changed and whatever was cached or had expired. */
  lemma ListedAsRemote<S(!new), A(!new)>(lookup: (S, string) -> Reply<A>, apply: (S, Op) -> (S, int),
        server: Server<S, A>, paths: iset<string>, state: S, calls: seq<Call<A>>, n: nat, outcome: Outcome<A>)
    requires n < |calls| && Sound(lookup, apply, server, paths) && calls[n].List?
    requires var w := WorldAt(lookup, apply, server, state, calls, n);
      Callable(w, calls[n], paths) && Right(lookup, apply, server, w, calls[n], outcome)
    requires forall k :: 0 <= k <= n ==>
      Names(server.list(WorldAt(lookup, apply, server, state, calls, k).state, calls[n].dir).0) ==
        Names(server.list(state, calls[n].dir).0)
    ensures var now := WorldAt(lookup, apply, server, state, calls, n).state;
      outcome == Listed(Calls(server.list(now, calls[n].dir).0, calls[n].answer, []))
  {
    var w, dir := WorldAt(lookup, apply, server, state, calls, n), calls[n].dir;
    OnlySameNames(lookup, apply, server, paths, state, calls, n, dir, Names(server.list(state, dir).0));
    ServedWhole(lookup, w.state, dir, server.list(w.state, dir).0, calls[n].answer);
  }

  /** A right outcome is the remote's own, call by call: it is told from the state and the open files that
      the calls before it have left, whatever is cached. */
  lemma RightStep<S(!new), A(!new)>(lookup: (S, string) -> Reply<A>, apply: (S, Op) -> (S, int), server: Server<S, A>,
        state: S, calls: seq<Call<A>>, i: nat, outcome: Outcome<A>)
    requires i < |calls|
    requires Right(lookup, apply, server, WorldAt(lookup, apply, server, state, calls, i), calls[i], outcome)
    ensures var start := WorldAt(lookup, apply, server, state, calls, 0); start.state == state && start.open == map[]
    ensures var before, after := WorldAt(lookup, apply, server, state, calls, i),
        WorldAt(lookup, apply, server, state, calls, i + 1);
      var s, s', open, open' := before.state, after.state, before.open, after.open;
      match calls[i]
      case Simple(Stat(path)) => outcome == Told(Attr(lookup(s, path))) && s' == s && open' == open
      case Simple(Change(op)) => outcome == Told(Code(apply(s, op).1)) && s' == apply(s, op).0 && open' == open
      case List(dir, answer) =>
        && outcome.Listed? && Absolute(dir) && s' == s && open' == open
        && forall k :: 0 <= k < |outcome.entries| ==>
             lookup(s, EntryPath(dir, outcome.entries[k].name)) == Found(outcome.entries[k].stat)
      case CreateFile(h, path) =>
        var (made, rc) := server.create(s, path);
        outcome == Done(rc) && s' == made && open' == if rc == 0 then open[h := path] else open
      case OpenFile(h, path) =>
        var rc := server.open(s, path);
        outcome == Done(rc) && s' == s && open' == if rc == 0 then open[h := path] else open
      case WriteFile(h, data) =>
        h in open && open' == open && (s', outcome.rc) == server.write(s, open[h], data) && outcome.Done?
      case CloseFile(h) => outcome == Done(0) && s' == s && open' == open - {h}
  {
    hide HandedOut, EntryPath, MayHold;
  }

  /** A handle that was opened is registered for certain as long as no file is closed and no handle that is
      open is opened anew. */
  lemma {:induction false} OpenedSurely<S, A>(lookup: (S, string) -> Reply<A>, apply: (S, Op) -> (S, int),
        server: Server<S, A>, state: S, calls: seq<Call<A>>, j: nat, n: nat)
    requires j < n <= |calls| && calls[j].OpenFile?
    requires server.open(WorldAt(lookup, apply, server, state, calls, j).state, calls[j].path) == 0
    requires forall k :: j < k < n ==> !calls[k].CloseFile?
    requires forall k :: j < k < n && (calls[k].OpenFile? || calls[k].CreateFile?) ==>
      calls[k].handle !in WorldAt(lookup, apply, server, state, calls, k).open
    ensures var w, h, path := WorldAt(lookup, apply, server, state, calls, n), calls[j].handle, calls[j].path;
      h in w.sure && w.sure[h] == path && h in w.open && w.open[h] == path
  {
    if n > j + 1 {
      OpenedSurely(lookup, apply, server, state, calls, j, n - 1);
    }
  }

  // Handing on true entries, and looking entries up truly, hands out what is true.
  lemma {:induction false} CallsTrue<S, A>(lookup: (S, string) -> Reply<A>, state: S, path: string,
        entries: seq<DirEntry<A>>, answer: seq<DirEntry<A>> -> int, made: seq<DirEntry<A>>)
    requires Absolute(path) && TrueEntries(lookup, state, path, entries) && TrueEntries(lookup, state, path, made)
    ensures TrueEntries(lookup, state, path, Calls(entries, answer, made))
  {
    if entries != [] {
      CallsTrue(lookup, state, path, entries[1..], answer, made + [entries[0]]);
    }
  }

  lemma {:induction false} PlusCallsTrue<S, A>(lookup: (S, string) -> Reply<A>, state: S, path: string,
        names: seq<string>, replies: seq<Reply<A>>, answer: seq<DirEntry<A>> -> int, made: seq<DirEntry<A>>)
    requires Absolute(path) && |names| == |replies| && TrueEntries(lookup, state, path, made)
    requires forall i :: 0 <= i < |names| ==> replies[i] == lookup(state, EntryPath(path, names[i]))
    ensures TrueEntries(lookup, state, path, PlusCalls(names, replies, answer, made).0)
  {
    if names != [] && replies[0].Found? {
      PlusCallsTrue(lookup, state, path, names[1..], replies[1..], answer,
        made + [DirEntry(names[0], replies[0].attr)]);
    }
  }

  lemma ServedTrue<S, A>(lookup: (S, string) -> Reply<A>, state: S, dir: string, names: seq<string>,
        listing: seq<DirEntry<A>>, answer: seq<DirEntry<A>> -> int)
    requires Absolute(dir) && TrueEntries(lookup, state, dir, listing)
    ensures TrueEntries(lookup, state, dir, Served(lookup, state, dir, names, listing, answer).0)
    ensures TrueEntries(lookup, state, dir, Calls(listing, answer, []))
  {
    hide TrueEntries, PlusCalls, Calls;
    var replies := Lookups(lookup, state, dir, names);
    NothingTrue(lookup, state, dir);
    PlusCallsTrue(lookup, state, dir, names, replies, answer, []);
    CallsTrue(lookup, state, dir, listing, answer, []);
    CallsTrue(lookup, state, dir, listing, answer, PlusCalls(names, replies, answer, []).0);
  }

  lemma NothingTrue<S, A>(lookup: (S, string) -> Reply<A>, state: S, path: string)
    requires Absolute(path)
    ensures TrueEntries(lookup, state, path, [])
  {
  }

  /** The directories cached can be listed with attributes. */
  ghost predicate DirsKnown(m: map<string, Binding<string>>, paths: iset<string>) {
    forall p :: p in m ==> Absolute(p) && IsListing(m[p].data) && EntriesKnown(p, NamesIn(m[p].data), paths)
  }

  /** What is cached of directories is what may be. */
  ghost predicate Foreseen(m: map<string, Binding<string>>, cached: iset<Cached>) {
    forall p :: p in m && IsListing(m[p].data) ==> Cached(p, NamesIn(m[p].data)) in cached
  }

  lemma KnownWithin(m: map<string, Binding<string>>, m': map<string, Binding<string>>, paths: iset<string>)
    requires DirsKnown(m, paths) && Within(m', m)
    ensures DirsKnown(m', paths) && AllListings(m')
  {
  }

  lemma KnownAfter(m: map<string, Binding<string>>, m': map<string, Binding<string>>, ttl: nat, u: nat, path: string,
        more: seq<string>, paths: iset<string>)
    requires DirsKnown(m, paths) && Absolute(path) && Within(m' - {path}, m) && EntriesKnown(path, more, paths)
    requires path in m' && IsListing(m'[path].data) && NamesIn(m'[path].data) == NamesBefore(m, ttl, u, path) + more
    ensures DirsKnown(m', paths)
  {
    forall p | p in m' && p != path ensures p in m && m'[p] == m[p] {
      assert p in m' - {path};
    }
  }

  /** What listing a directory hands out and leaves cached, by what was cached of it before: the remote's
      listing, unless names are cached that it is served from. */
  ghost predicate Relisted<S, A>(lookup: (S, string) -> Reply<A>, state: S, m: map<string, Binding<string>>,
        m': map<string, Binding<string>>, dir: string, listing: seq<DirEntry<A>>, answer: seq<DirEntry<A>> -> int,
        entries: seq<DirEntry<A>>)
    requires Absolute(dir)
  {
    && Within(m' - {dir}, m)
    && (entries == Calls(listing, answer, []) ||
        (dir in m && IsListing(m[dir].data) &&
         entries == Served(lookup, state, dir, NamesIn(m[dir].data), listing, answer).0))
    && (dir in m' && IsListing(m'[dir].data) ==>
          || NamesIn(m'[dir].data) == Names(listing)
          || (dir in m && IsListing(m[dir].data)
              && HeldAfter(lookup, state, dir, NamesIn(m[dir].data), listing, answer, NamesIn(m'[dir].data))))
  }

  // The listing was asked for, or served from the cache as far as that went.
  lemma RelistedBy<S, A>(lookup: (S, string) -> Reply<A>, state: S, m0: map<string, Binding<string>>,
        m: map<string, Binding<string>>, m': map<string, Binding<string>>, ttl: nat, t: nat, u: nat, dir: string,
        listing: seq<DirEntry<A>>, answer: seq<DirEntry<A>> -> int, isCached: bool, replies: seq<Reply<A>>,
        made: seq<DirEntry<A>>, replayed: bool)
    requires Absolute(dir) && Within(m, m0) && AllListings(m) && (isCached <==> dir in m) && t <= u
    requires Within(m' - {dir}, m) && (replayed ==> Within(m', m))
    requires !replayed ==>
      && dir in m' && IsListing(m'[dir].data)
      && NamesIn(m'[dir].data) == NamesBefore(m, ttl, u, dir) + Names(listing)
    requires !(isCached && dir in LiveMap(m, ttl, t)) ==> made == [] && !replayed
    requires isCached && dir in LiveMap(m, ttl, t) ==>
      && |replies| == |NamesIn(m[dir].data)|
      && (forall i :: 0 <= i < |replies| ==> replies[i] == lookup(state, EntryPath(dir, NamesIn(m[dir].data)[i])))
      && (made, replayed) == PlusCalls(NamesIn(m[dir].data), replies, answer, [])
    ensures Relisted(lookup, state, m0, m', dir, listing, answer,
              if replayed then made else Calls(listing, answer, made))
  {
    hide IsListing, PlusCalls, Calls;
    NamesBeforeLater(m, ttl, t, u, dir);
    forall p | p in m' - {dir} ensures p in m0 && m'[p] == m0[p] {
      assert p in m && (m' - {dir})[p] == m[p];
    }
    if isCached && dir in LiveMap(m, ttl, t) {
      assert replies == Lookups(lookup, state, dir, NamesIn(m[dir].data));
    }
  }

  /** opendir and readdir with attributes: what is handed out is the remote's listing if the directory is
      not cached, or with the same names, and otherwise what those that are cached now stand for. */
  method ListDir<S(!new), A(0, !new)>(endp: CachedEndpoint<S, A>, server: Server<S, A>, dir: string, zero: A,
        consumer: Consumer<A>)
    requires endp.Valid() && endp.Taken() == map[] && endp.Coherent() && DirsKnown(endp.dirs.bindings, endp.attrs.paths)
    requires Sound(endp.remote.lookup, endp.remote.apply, server, endp.attrs.paths)
    requires dir in endp.attrs.paths && Canonical(dir) && dir != "/"
    requires consumer !in endp.Repr() && consumer.calls == []
    modifies endp.Repr(), consumer
    ensures endp.Valid() && endp.Taken() == map[] && endp.Coherent() && DirsKnown(endp.dirs.bindings, endp.attrs.paths)
    ensures endp.Grown() && endp.remote.state == old(endp.remote.state)
    ensures TrueEntries(endp.remote.lookup, endp.remote.state, dir, consumer.calls)
    ensures Relisted(endp.remote.lookup, endp.remote.state, old(endp.dirs.bindings), endp.dirs.bindings, dir,
              server.list(endp.remote.state, dir).0, consumer.answer, consumer.calls)
    ensures var listing, m := server.list(endp.remote.state, dir).0, old(endp.dirs.bindings);
      (dir in m ==> IsListing(m[dir].data) && NamesIn(m[dir].data) == Names(listing)) ==>
        consumer.calls == Calls(listing, consumer.answer, [])
  {
    hide CachedEndpoint.Valid, CachedEndpoint.Repr, EntryPath, IsListing, State.Open, LiveMap, Sound, DirsKnown;
    hide EntriesKnown, CoherentIn, AttributesRight, AllAnswered, Within, PlusCalls, Calls, NamesBefore, TrueEntries;
    hide Listable, Shown, ListedOver, Sourced, Kept, AttrsThere, Served, Relisted;
    ghost var lookup, state, paths, a := endp.remote.lookup, endp.remote.state, endp.attrs.paths, endp.attrs.bindings;
    ghost var m0, ttl, first := endp.dirs.bindings, endp.dirs.Ttl(), endp.attrs.Next();
    var isCached := DirExists(endp, dir);
    ghost var m := endp.dirs.bindings;
    LiveWithin(m0, ttl, endp.dirs.Now(), {});
    KnownWithin(m0, m, paths);
    KnownAt(m, paths, dir);
    var (listing, end) := server.list(endp.remote.state, dir);
    SoundListing(lookup, endp.remote.apply, server, paths, state, dir, zero);
    var rc;
    ghost var t, u, replies, made, replayed, asked;
    rc, t, u, replies, made, replayed, asked := Readdir(endp, dir, isCached, 0, listing, end, true, zero, consumer);
    if isCached && dir in LiveMap(m, ttl, t) {
      AllRight(lookup, state, a, endp.attrs.Ttl(), first, endp.attrs.Now(), dir, NamesIn(m[dir].data), replies);
    }
    RelistedBy(lookup, state, m0, m, endp.dirs.bindings, ttl, t, u, dir, listing, consumer.answer, isCached, replies,
      made, replayed);
    RelistedRight(lookup, state, m0, endp.dirs.bindings, dir, listing, consumer.answer, consumer.calls);
    if asked {
      KnownAfter(m, endp.dirs.bindings, ttl, u, dir, Names(listing), paths);
    } else {
      KnownWithin(m, endp.dirs.bindings, paths);
    }
  }

  lemma RelistedRight<S, A>(lookup: (S, string) -> Reply<A>, state: S, m: map<string, Binding<string>>,
        m': map<string, Binding<string>>, dir: string, listing: seq<DirEntry<A>>, answer: seq<DirEntry<A>> -> int,
        entries: seq<DirEntry<A>>)
    requires Absolute(dir) && TrueEntries(lookup, state, dir, listing)
    requires Relisted(lookup, state, m, m', dir, listing, answer, entries)
    ensures TrueEntries(lookup, state, dir, entries)
    ensures (dir in m ==> IsListing(m[dir].data) && NamesIn(m[dir].data) == Names(listing)) ==>
      entries == Calls(listing, answer, [])
  {
    hide TrueEntries, Served, Calls, IsListing, HeldAfter;
    ServedTrue(lookup, state, dir, [], listing, answer);
    ServedWhole(lookup, state, dir, listing, answer);
    if dir in m && IsListing(m[dir].data) {
      ServedTrue(lookup, state, dir, NamesIn(m[dir].data), listing, answer);
    }
  }

  lemma KnownAt(m: map<string, Binding<string>>, paths: iset<string>, path: string)
    requires DirsKnown(m, paths)
    ensures path in m ==> Absolute(path) && IsListing(m[path].data) && EntriesKnown(path, NamesIn(m[path].data), paths)
  {
  }

  lemma SoundListing<S(!new), A(!new)>(lookup: (S, string) -> Reply<A>, apply: (S, Op) -> (S, int),
        server: Server<S, A>, paths: iset<string>, state: S, dir: string, zero: A)
    requires Sound(lookup, apply, server, paths) && dir in paths && Canonical(dir) && dir != "/"
    ensures var listing := server.list(state, dir).0;
      && Listable(dir, listing, paths) && EntriesKnown(dir, Names(listing), paths)
      && Shown(listing, true, zero) == listing && TrueEntries(lookup, state, dir, listing)
      && AttributesRight(lookup, state, dir, listing)
  {
    assert Shown(server.list(state, dir).0, true, zero) == server.list(state, dir).0;
  }

  lemma ForeseenWithin(m: map<string, Binding<string>>, m': map<string, Binding<string>>, cached: iset<Cached>)
    requires Foreseen(m, cached) && Within(m', m)
    ensures Foreseen(m', cached)
  {
  }

  // After a call that is not a listing: what is forgotten is not cached either.
  lemma ForeseenForgotten<S>(m: map<string, Binding<string>>, m': map<string, Binding<string>>, w: World<S>,
        dir: string)
    requires Foreseen(m, w.cached) && Within(m', m) && dir !in m'
    ensures Foreseen(m', w.Forget(dir).cached)
  {
  }

  lemma ForeseenRelisted<S, A>(lookup: (S, string) -> Reply<A>, m: map<string, Binding<string>>,
        m': map<string, Binding<string>>, w: World<S>, dir: string, listing: seq<DirEntry<A>>,
        answer: seq<DirEntry<A>> -> int, entries: seq<DirEntry<A>>)
    requires Absolute(dir) && Foreseen(m, w.cached)
    requires Relisted(lookup, w.state, m, m', dir, listing, answer, entries)
    ensures Foreseen(m', w.Relist(lookup, dir, listing, answer).cached)
    ensures HandedOut(lookup, w, dir, listing, answer, entries)
  {
    hide IsListing, Served, HeldAfter, Calls;
    forall p | p in m' && p != dir ensures p in m && m'[p] == m[p] {
      assert p in m' - {dir};
    }
  }

  /** The handle map agrees with the remote's open files, and has those that are sure. */
  ghost predicate Tracks<S>(paths: map<nat, string>, w: World<S>, known: iset<string>) {
    && (forall h :: h in w.open ==> w.open[h] in known)
    && (forall h :: h in paths ==> h in w.open && paths[h] == w.open[h])
    && (forall h :: h in w.sure ==> h in paths)
  }

  lemma TracksOpened<S, A>(paths: map<nat, string>, paths': map<nat, string>, lookup: (S, string) -> Reply<A>,
        apply: (S, Op) -> (S, int), server: Server<S, A>, w: World<S>, h: nat, path: string, known: iset<string>)
    requires Tracks(paths, w, known) && path in known && server.open(w.state, path) == 0 && h in paths'
    requires paths'[h] == path
    requires forall k :: k in paths' && k != h ==> k in paths && paths'[k] == paths[k]
    requires h !in paths ==> paths' == paths[h := path]
    ensures Tracks(paths', w.Next(lookup, apply, server, OpenFile(h, path)), known)
  {
  }

  lemma TracksClosed<S, A>(paths: map<nat, string>, paths': map<nat, string>, lookup: (S, string) -> Reply<A>,
        apply: (S, Op) -> (S, int), server: Server<S, A>, w: World<S>, h: nat, known: iset<string>)
    requires Tracks(paths, w, known) && h !in paths' && (h !in paths ==> paths' == paths)
    requires forall k :: k in paths' ==> k in paths && paths'[k] == paths[k]
    ensures Tracks(paths', w.Next(lookup, apply, server, CloseFile(h)), known)
  {
  }

  lemma TracksOn<S, A>(paths: map<nat, string>, lookup: (S, string) -> Reply<A>, apply: (S, Op) -> (S, int),
        server: Server<S, A>, w: World<S>, call: Call<A>, known: iset<string>)
    requires Tracks(paths, w, known) && Callable(w, call, known)
    requires match call
      case OpenFile(_, path) => server.open(w.state, path) != 0
      case CloseFile(_) => false
      case _ => true
    ensures Tracks(paths, w.Next(lookup, apply, server, call), known)
  {
  }

  lemma SoundParts<S(!new), A(!new)>(lookup: (S, string) -> Reply<A>, apply: (S, Op) -> (S, int), server: Server<S, A>,
        paths: iset<string>)
    requires Sound(lookup, apply, server, paths)
    ensures OwnPathOnly(lookup, apply, paths)
    ensures forall p :: p in paths ==> CreatesAt(lookup, CreatingOf(server, p), p, paths)
    ensures forall p, data :: p in paths ==> WritesAt(lookup, EffectOf(server, p, data), p, paths)
  {
  }

  /** The caches and the remote are where the run has come to. */
  ghost predicate InStep<S(!new), A(0, !new)>(endp: CachedEndpoint<S, A>, w: World<S>)
    reads endp, endp.remote, endp.attrs, endp.dirs, endp.dirs.cache, endp.dirs.cache.table, endp.dirs.cache.list
  {
    && endp.Taken() == map[] && endp.Coherent() && endp.remote.state == w.state
    && DirsKnown(endp.dirs.bindings, endp.attrs.paths) && Foreseen(endp.dirs.bindings, w.cached)
  }

  method RunSimple<S(!new), A(0, !new)>(endp: CachedEndpoint<S, A>, server: Server<S, A>, request: Request,
        ghost w: World<S>) returns (outcome: Outcome<A>)
    requires endp.Valid() && InStep(endp, w) && Callable<S, A>(w, Simple(request), endp.attrs.paths)
    requires OwnPathOnly(endp.remote.lookup, endp.remote.apply, endp.attrs.paths)
    modifies endp.Repr()
    ensures endp.Valid() && endp.Grown()
    ensures InStep(endp, w.Next(endp.remote.lookup, endp.remote.apply, server, Simple(request)))
    ensures Right(endp.remote.lookup, endp.remote.apply, server, w, Simple(request), outcome)
  {
    hide CachedEndpoint.Valid, CachedEndpoint.Repr, CachedEndpoint.Taken, CoherentIn, DirsKnown, Foreseen, Within;
    hide OwnPathOnly, Timely, Witnessed;
    ghost var m := endp.dirs.bindings;
    var answer := endp.Serve(request, []);
    KnownWithin(m, endp.dirs.bindings, endp.attrs.paths);
    ForeseenWithin(m, endp.dirs.bindings, w.cached);
    if request.Path() !in endp.dirs.bindings {
      ForeseenForgotten(m, endp.dirs.bindings, w, request.Path());
    }
    outcome := Told(answer);
  }

  method RunList<S(!new), A(0, !new)>(endp: CachedEndpoint<S, A>, server: Server<S, A>, dir: string,
        answer: seq<DirEntry<A>> -> int, zero: A, ghost w: World<S>) returns (outcome: Outcome<A>)
    requires endp.Valid() && InStep(endp, w) && Callable(w, List(dir, answer), endp.attrs.paths)
    requires Sound(endp.remote.lookup, endp.remote.apply, server, endp.attrs.paths)
    modifies endp.Repr()
    ensures endp.Valid() && endp.Grown()
    ensures InStep(endp, w.Next(endp.remote.lookup, endp.remote.apply, server, List(dir, answer)))
    ensures Right(endp.remote.lookup, endp.remote.apply, server, w, List(dir, answer), outcome)
  {
    hide CachedEndpoint.Valid, CachedEndpoint.Repr, CachedEndpoint.Taken, CoherentIn, DirsKnown, Foreseen, Sound;
    hide Relisted, TrueEntries, HandedOut, MayHold;
    ghost var m := endp.dirs.bindings;
    endp.ReprAllocated();
    var consumer := new Consumer(answer);
    ListDir(endp, server, dir, zero, consumer);
    ForeseenRelisted(endp.remote.lookup, m, endp.dirs.bindings, w, dir, server.list(w.state, dir).0, answer,
      consumer.calls);
    outcome := Listed(consumer.calls);
  }

  method RunCreate<S(!new), A(0, !new)>(endp: CachedEndpoint<S, A>, server: Server<S, A>, handle: nat, path: string,
        ghost w: World<S>) returns (outcome: Outcome<A>, rc: int)
    requires endp.Valid() && InStep(endp, w) && Callable<S, A>(w, CreateFile(handle, path), endp.attrs.paths)
    requires CreatesAt(endp.remote.lookup, CreatingOf(server, path), path, endp.attrs.paths)
    modifies endp.Repr()
    ensures endp.Valid() && endp.Grown() && rc == server.create(w.state, path).1
    ensures InStep(endp, w.Next(endp.remote.lookup, endp.remote.apply, server, CreateFile(handle, path)))
    ensures Right(endp.remote.lookup, endp.remote.apply, server, w, CreateFile(handle, path), outcome)
  {
    hide CachedEndpoint.Valid, CachedEndpoint.Repr, CachedEndpoint.Taken, CoherentIn, DirsKnown, Foreseen, Within;
    hide CreatesAt, PurgedBoth, SameAt;
    ghost var m := endp.dirs.bindings;
    rc := Create(endp, path, CreatingOf(server, path));
    if rc == 0 {
      AfterChange(m, endp.dirs.bindings, endp.dirs.Ttl(), endp.dirs.Now(), path);
      KnownWithin(m, endp.dirs.bindings, endp.attrs.paths);
      ForeseenForgotten(m, endp.dirs.bindings, w, path);
    }
    outcome := Done(rc);
  }

  // Writing through a handle that is registered.
  method RunWrite<S(!new), A(0, !new)>(endp: CachedEndpoint<S, A>, handles: HandleMap, server: Server<S, A>,
        handle: nat, data: nat, path: string, ghost w: World<S>) returns (outcome: Outcome<A>)
    requires endp.Valid() && InStep(endp, w) && handle in w.open && w.open[handle] == path
    requires handles.Valid() && endp.Repr() !! handles.Repr() && Tracks(handles.paths, w, endp.attrs.paths)
    requires handle in handles.paths
    requires WritesAt(endp.remote.lookup, EffectOf(server, path, data), path, endp.attrs.paths)
    modifies endp.Repr()
    ensures endp.Valid() && endp.Grown()
    ensures InStep(endp, w.Next(endp.remote.lookup, endp.remote.apply, server, WriteFile(handle, data)))
    ensures Right(endp.remote.lookup, endp.remote.apply, server, w, WriteFile(handle, data), outcome)
  {
    hide CachedEndpoint.Valid, CachedEndpoint.Repr, CachedEndpoint.Taken, CoherentIn, DirsKnown, Foreseen, WritesAt;
    hide HandleMap.Valid;
    var rc := Write(endp, handles, handle, EffectOf(server, path, data), path);
    outcome := Done(rc);
  }

  // Opening and closing files.
  method RunHandles<S(!new), A(0, !new)>(endp: CachedEndpoint<S, A>, handles: HandleMap, server: Server<S, A>,
        call: Call<A>, open: map<nat, string>, ghost w: World<S>) returns (outcome: Outcome<A>, open': map<nat, string>)
    requires InStep(endp, w) && Callable(w, call, endp.attrs.paths) && (call.OpenFile? || call.CloseFile?)
    requires handles.Valid() && endp.Repr() !! handles.Repr() && Tracks(handles.paths, w, endp.attrs.paths)
    requires open == w.open
    modifies handles.Repr()
    ensures handles.Valid() && handles.Grown()
    ensures var w' := w.Next(endp.remote.lookup, endp.remote.apply, server, call);
      InStep(endp, w') && open' == w'.open && Tracks(handles.paths, w', endp.attrs.paths)
    ensures Right(endp.remote.lookup, endp.remote.apply, server, w, call, outcome)
    ensures forall h :: h in handles.paths ==>
      if call.handle == h then call.OpenFile? else h in old(handles.paths)
  {
    hide CachedEndpoint.Coherent, DirsKnown, Foreseen, HandleMap.Valid, Tracks, Lost, EndsChain;
    ghost var paths, known, lookup, apply := handles.paths, endp.attrs.paths, endp.remote.lookup, endp.remote.apply;
    open' := open;
    match call {
      case OpenFile(h, path) =>
        var rc := server.open(endp.remote.state, path);
        outcome := Done(rc);
        OpenFiles.Open(handles, h, path, rc);
        if rc == 0 {
          open' := open[h := path];
          TracksOpened(paths, handles.paths, lookup, apply, server, w, h, path, known);
        } else {
          TracksOn(paths, lookup, apply, server, w, call, known);
        }
      case CloseFile(h) =>
        handles.Unregister(h);
        open' := open - {h};
        TracksClosed(paths, handles.paths, lookup, apply, server, w, h, known);
        outcome := Done(0);
    }
  }

  lemma ReprKeptApart<S(!new), A(0, !new)>(endp: CachedEndpoint<S, A>, handles: HandleMap)
    ensures forall o :: o in endp.Repr() ==> allocated(o)
    ensures forall o :: o in handles.Repr() ==> allocated(o)
    ensures {endp, endp.remote, endp.attrs, endp.dirs, endp.dirs.cache, endp.dirs.cache.table} <= endp.Repr()
    ensures endp.dirs.cache.list in endp.Repr()
  {
    endp.ReprAllocated();
    HandlesAllocated(handles);
  }

  // One call of a run; to write, the handle must be registered.
  method Make<S(!new), A(0, !new)>(endp: CachedEndpoint<S, A>, handles: HandleMap, server: Server<S, A>, call: Call<A>,
        open: map<nat, string>, zero: A, ghost w: World<S>) returns (outcome: Outcome<A>, open': map<nat, string>)
    requires endp.Valid() && InStep(endp, w) && Callable(w, call, endp.attrs.paths)
    requires Sound(endp.remote.lookup, endp.remote.apply, server, endp.attrs.paths)
    requires handles.Valid() && endp.Repr() !! handles.Repr() && Tracks(handles.paths, w, endp.attrs.paths)
    requires open == w.open && (call.WriteFile? ==> call.handle in handles.paths)
    modifies endp.Repr(), handles.Repr()
    ensures endp.Valid() && handles.Valid() && endp.Grown() && handles.Grown() && endp.Repr() !! handles.Repr()
    ensures var w' := w.Next(endp.remote.lookup, endp.remote.apply, server, call);
      InStep(endp, w') && open' == w'.open && Tracks(handles.paths, w', endp.attrs.paths)
    ensures Right(endp.remote.lookup, endp.remote.apply, server, w, call, outcome)
    ensures if call.OpenFile? || call.CloseFile? then forall h :: h in handles.paths ==>
        if call.handle == h then call.OpenFile? else h in old(handles.paths)
      else handles.paths == old(handles.paths)
  {
    hide CachedEndpoint.Valid, CachedEndpoint.Repr, InStep, Sound, HandleMap.Valid, Tracks, Lost, EndsChain, Right;
    hide MayHold, CreatesAt, WritesAt, OwnPathOnly;
    ghost var lookup, apply, known, paths := endp.remote.lookup, endp.remote.apply, endp.attrs.paths, handles.paths;
    ReprKeptApart(endp, handles);
    SoundParts(lookup, apply, server, known);
    TracksOpen(paths, w, known);
    open' := open;
    if call.OpenFile? || call.CloseFile? {
      outcome, open' := RunHandles(endp, handles, server, call, open, w);
      return;
    }
    TracksOn(paths, lookup, apply, server, w, call, known);
    match call {
      case Simple(request) =>
        outcome := RunSimple(endp, server, request, w);
      case List(dir, answer) =>
        outcome := RunList(endp, server, dir, answer, zero, w);
      case CreateFile(h, path) =>
        var rc;
        outcome, rc := RunCreate(endp, server, h, path, w);
        open' := if rc == 0 then open[h := path] else open;
      case WriteFile(h, data) =>
        outcome := RunWrite(endp, handles, server, h, data, open[h], w);
    }
  }

  lemma TracksOpen<S>(paths: map<nat, string>, w: World<S>, known: iset<string>)
    requires Tracks(paths, w, known)
    ensures forall h :: h in w.open ==> w.open[h] in known
  {
  }

  /** Every run of getattr, changes, listings with attributes, and creating, opening, writing and closing
      files: every outcome is the remote's own, every attribute handed out with a listing is what the
      remote holds at that moment, and the cache stays coherent, up to the first write through a handle
      that is not registered; the run stops there. */
  method Run<S(!new), A(0, !new)>(endp: CachedEndpoint<S, A>, handles: HandleMap, server: Server<S, A>,
        calls: seq<Call<A>>, zero: A) returns (outcomes: seq<Outcome<A>>)
    requires endp.Valid() && endp.Taken() == map[] && endp.attrs.bindings == map[] && endp.dirs.bindings == map[]
    requires handles.Valid() && handles.paths == map[] && endp.Repr() !! handles.Repr()
    requires Sound(endp.remote.lookup, endp.remote.apply, server, endp.attrs.paths)
    requires forall i :: 0 <= i < |calls| ==>
      Callable(WorldAt(endp.remote.lookup, endp.remote.apply, server, endp.remote.state, calls, i), calls[i],
        endp.attrs.paths)
    modifies endp.Repr(), handles.Repr()
    ensures endp.Valid() && endp.Coherent() && |outcomes| <= |calls|
    ensures var w := WorldAt(endp.remote.lookup, endp.remote.apply, server, old(endp.remote.state), calls, |outcomes|);
      && endp.remote.state == w.state
      && (|outcomes| < |calls| ==>
            var call := calls[|outcomes|];
            call.WriteFile? && call.handle !in handles.paths && call.handle !in w.sure)
    ensures forall i :: 0 <= i < |outcomes| ==>
      var w := WorldAt(endp.remote.lookup, endp.remote.apply, server, old(endp.remote.state), calls, i);
      Right(endp.remote.lookup, endp.remote.apply, server, w, calls[i], outcomes[i])
    ensures forall i :: 0 <= i < |outcomes| && calls[i].WriteFile? ==> exists j ::
      && 0 <= j < i && calls[j].OpenFile? && calls[j].handle == calls[i].handle
      && forall k :: j < k < i && calls[k].CloseFile? ==> calls[k].handle != calls[i].handle
  {
    hide CachedEndpoint.Valid, CachedEndpoint.Repr, CachedEndpoint.Taken, Sound, InStep, HandleMap.Valid;
    hide HandleMap.Repr, Tracks, Right, Callable, World.Next, WorldAt, OpenedBefore;
    ghost var lookup, apply, s0, known := endp.remote.lookup, endp.remote.apply, endp.remote.state, endp.attrs.paths;
    ghost var w: World<S> := World(s0, map[], map[], iset{});
    StartOfRun(endp, handles, server, calls, w);
    var open: map<nat, string> := map[];
    outcomes := [];
    var i := 0;
    while i < |calls|
      invariant 0 <= i <= |calls| && |outcomes| == i && w == WorldAt(lookup, apply, server, s0, calls, i)
      invariant endp.Valid() && InStep(endp, w) && endp.Grown() && handles.Grown()
      invariant handles.Valid() && endp.Repr() !! handles.Repr() && open == w.open && Tracks(handles.paths, w, known)
      invariant forall k :: 0 <= k < i ==>
        Right(lookup, apply, server, WorldAt(lookup, apply, server, s0, calls, k), calls[k], outcomes[k])
      invariant forall h :: h in handles.paths ==> OpenedBefore(calls, i, h)
      invariant forall k :: 0 <= k < i && calls[k].WriteFile? ==> OpenedBefore(calls, k, calls[k].handle)
    {
      ghost var registered := handles.paths;
      ReprKeptApart(endp, handles);
      if calls[i].WriteFile? {
        var path := handles.Get(calls[i].handle);
        if path.None? {
          break;
        }
      }
      var outcome;
      outcome, open := Make(endp, handles, server, calls[i], open, zero, w);
      WorldOnward(lookup, apply, server, s0, calls, i);
      OpenedOnward(calls, i, registered, handles.paths);
      w := w.Next(lookup, apply, server, calls[i]);
      outcomes := outcomes + [outcome];
      i := i + 1;
    }
    EndOfRun(endp, handles, w);
    forall k | 0 <= k < |outcomes| && calls[k].WriteFile? ensures exists j ::
      && 0 <= j < k && calls[j].OpenFile? && calls[j].handle == calls[k].handle
      && forall l :: j < l < k && calls[l].CloseFile? ==> calls[l].handle != calls[k].handle
    {
      OpenedAt(calls, k, calls[k].handle);
    }
  }

  /** The handle was opened in one of the first `n` calls, and not closed since. */
  ghost predicate OpenedBefore<A>(calls: seq<Call<A>>, n: nat, h: nat)
    requires n <= |calls|
  {
    exists j ::
      && 0 <= j < n && calls[j].OpenFile? && calls[j].handle == h
      && forall k :: j < k < n && calls[k].CloseFile? ==> calls[k].handle != h
  }

  lemma OpenedAt<A>(calls: seq<Call<A>>, n: nat, h: nat)
    requires n <= |calls| && OpenedBefore(calls, n, h)
    ensures exists j ::
      && 0 <= j < n && calls[j].OpenFile? && calls[j].handle == h
      && forall k :: j < k < n && calls[k].CloseFile? ==> calls[k].handle != h
  {
  }

  lemma OpenedOnward<A>(calls: seq<Call<A>>, n: nat, paths: map<nat, string>, paths': map<nat, string>)
    requires n < |calls| && forall h :: h in paths ==> OpenedBefore(calls, n, h)
    requires if calls[n].OpenFile? || calls[n].CloseFile? then forall h :: h in paths' ==>
        if calls[n].handle == h then calls[n].OpenFile? else h in paths
      else paths' == paths
    ensures forall h :: h in paths' ==> OpenedBefore(calls, n + 1, h)
  {
    forall h | h in paths' ensures OpenedBefore(calls, n + 1, h) {
      if !(calls[n].OpenFile? && calls[n].handle == h) {
        var j :|
          && 0 <= j < n && calls[j].OpenFile? && calls[j].handle == h
          && forall k :: j < k < n && calls[k].CloseFile? ==> calls[k].handle != h;
      }
    }
  }

  lemma StartOfRun<S(!new), A(0, !new)>(endp: CachedEndpoint<S, A>, handles: HandleMap, server: Server<S, A>,
        calls: seq<Call<A>>, w: World<S>)
    requires endp.Taken() == map[] && endp.attrs.bindings == map[] && endp.dirs.bindings == map[]
    requires handles.paths == map[] && w == World(endp.remote.state, map[], map[], iset{})
    ensures InStep(endp, w) && Tracks(handles.paths, w, endp.attrs.paths)
    ensures w == WorldAt(endp.remote.lookup, endp.remote.apply, server, endp.remote.state, calls, 0)
  {
  }

  lemma WorldOnward<S, A>(lookup: (S, string) -> Reply<A>, apply: (S, Op) -> (S, int), server: Server<S, A>, state: S,
        calls: seq<Call<A>>, n: nat)
    requires n < |calls|
    ensures WorldAt(lookup, apply, server, state, calls, n + 1) ==
      WorldAt(lookup, apply, server, state, calls, n).Next(lookup, apply, server, calls[n])
  {
  }

  lemma EndOfRun<S(!new), A(0, !new)>(endp: CachedEndpoint<S, A>, handles: HandleMap, w: World<S>)
    requires InStep(endp, w) && Tracks(handles.paths, w, endp.attrs.paths)
    ensures endp.Coherent() && endp.remote.state == w.state
    ensures forall h :: h !in handles.paths ==> h !in w.sure
  {
  }
}
