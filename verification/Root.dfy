/** What listing the root does to the caches: its entries are looked up at paths that no change
    reaches, and its ".." at the path of the root itself. */
module Roots {
  import opened Clocks
  import opened FileCaches
  import opened Listings
  import opened Paths
  import opened PathBuffers
  import opened Endpoints
  import opened Readdirs

  /** The ".." listed in the root is a directory outside of the mount. If it is listed behind ".", getattr
      then answers for the root with what that directory holds. */
  method StatRootAfterListing<S(!new), A(0, !new)>(endp: CachedEndpoint<S, A>, root: string, listing: seq<DirEntry<A>>,
        end: int, zero: A, consumer: Consumer<A>, i: nat) returns (r: Reply<A>)
    requires endp.Valid() && root in endp.attrs.paths && Canonical(root) && endp.dirs.Closed(root)
    requires consumer !in endp.Repr() && AllListings(endp.dirs.bindings) && Listable(root, listing, endp.attrs.paths)
    requires root == "/" && i < |listing| && listing[i].name == ".."
    requires forall j :: i < j < |listing| ==> listing[j].name != "." && listing[j].name != ".."
    modifies endp.Repr(), consumer
    ensures endp.Valid() && endp.remote.state == old(endp.remote.state)
    ensures endp.attrs.Now() <= old(endp.attrs.Now()) + endp.attrs.Ttl() ==> r == Found(listing[i].stat)
    ensures endp.attrs.Now() <= old(endp.attrs.Now()) + endp.attrs.Ttl() && endp.Coherent() ==>
      endp.remote.lookup(endp.remote.state, root) == Found(listing[i].stat)
  {
    hide CachedEndpoint.Valid, CachedEndpoint.Repr, AllListings, Listable;
    ghost var j;
    r, j := StatAfterListing(endp, root, listing, end, true, zero, consumer, i);
    LastOfDots(listing, i, j);
  }

  // Behind the last ".." no other entry is looked up at the root.
  lemma LastOfDots<A>(listing: seq<DirEntry<A>>, i: nat, j: nat)
    requires i < |listing| && j < |listing| && listing[i].name == ".."
    requires forall k :: i < k < |listing| ==> listing[k].name != "." && listing[k].name != ".."
    requires EntryPath("/", listing[j].name) == EntryPath("/", listing[i].name)
    requires forall k :: j < k < |listing| ==> EntryPath("/", listing[k].name) != EntryPath("/", listing[j].name)
    ensures i == j && EntryPath("/", listing[i].name) == "/"
  {
    assert forall e: string :: e != "." && e != ".." ==> |EntryPath("/", e)| >= 2;
  }

  /** The attributes of the last entries at their paths are still cached after an operation on one of
      the entries. */
  lemma ThereAfterChange<A>(m: map<string, Binding<A>>, m': map<string, Binding<A>>, ttl: nat, now: nat,
        listing: seq<DirEntry<A>>, start: nat, name: string, onDirectory: bool)
    requires Plain("/" + name) && name != "" && '/' !in name && now <= start + ttl
    requires AttrsThere(m, "/", listing, |listing|, start)
    requires if onDirectory then exists known :: PurgedBoth(m', m, ttl, now, "/" + name, CutTooShort("/" + name), known)
      else Purged(m', m, ttl, now, "/" + name, true)
    ensures AttrsThere(m', "/", listing, |listing|, start)
  {
    NothingCut(name);
    forall j | IsLast("/", listing, j, |listing|)
      ensures var p := EntryPath("/", listing[j].name); p in LiveMap(m, ttl, now) && p != "/" + name && p != ""
    {
      var p := EntryPath("/", listing[j].name);
      assert p in m && start <= m[p].stamp;
      assert p == "/" || p[1] == '/';
    }
  }

  lemma NothingCut(name: string)
    requires '/' !in name
    ensures LastSeparator("/" + name) == 0 && CutTooShort("/" + name) == ""
  {
    assert forall k :: 0 < k < |"/" + name| ==> ("/" + name)[k] == name[k - 1];
  }

  // The root's own listing is still cached then.
  lemma ListedAfterChange(m: map<string, Binding<string>>, m': map<string, Binding<string>>, ttl: nat, now: nat,
        name: string)
    requires '/' !in name && name != ""
    requires m' == m || exists known :: PurgedBoth(m', m, ttl, now, "/" + name, CutTooShort("/" + name), known)
    ensures Within(m', m) && ("/" in m && !Expired(m["/"].stamp, ttl, now) ==> "/" in m')
  {
    NothingCut(name);
    assert "/" in m && !Expired(m["/"].stamp, ttl, now) ==> "/" in LiveMap(m, ttl, now);
  }

  lemma ListingsWithin(m: map<string, Binding<string>>, m': map<string, Binding<string>>)
    requires AllListings(m) && Within(m', m)
    ensures AllListings(m') && ("/" in m' ==> "/" in m && m'["/"] == m["/"])
  {
  }

  lemma NothingBefore(m: map<string, Binding<string>>, ttl: nat, t: nat, path: string)
    requires path !in m
    ensures NamesBefore(m, ttl, t, path) == []
  {
  }

  // Until something expires, every lookup finds what the last entry at the path was shown with.
  lemma RepliesRemembered<S, A>(lookup: (S, string) -> Reply<A>, state: S, m: map<string, Binding<A>>, ttl: nat,
        first: nat, now: nat, listing: seq<DirEntry<A>>, start: nat, replies: seq<Reply<A>>, i: nat)
    requires AttrsThere(m, "/", listing, |listing|, start) && now <= start + ttl && |replies| == |listing|
    requires m != map[] ==> first <= now
    requires AllAnswered(lookup, state, m, ttl, first, now, "/", Names(listing), replies)
    requires IsLast("/", listing, i, |listing|)
    ensures forall k :: 0 <= k < |replies| ==> replies[k].Found?
    ensures replies[i] == Found(listing[i].stat)
  {
    forall k | 0 <= k < |replies|
      ensures replies[k].Found? && (IsLast("/", listing, k, |listing|) ==> replies[k] == Found(listing[k].stat))
    {
      var j := LastExists("/", listing, k, |listing|);
      assert Names(listing)[k] == listing[k].name;
    }
  }

  /** Listing the root, and then an operation on one of its entries. */
  method ListAndChange<S(!new), A(0, !new)>(endp: CachedEndpoint<S, A>, root: string, listing: seq<DirEntry<A>>,
        end: int, name: string, op: Op, zero: A, consumer: Consumer<A>) returns (rc: int)
    requires endp.Valid() && root in endp.attrs.paths && Canonical(root) && endp.dirs.Closed(root)
    requires root !in endp.dirs.bindings && AllListings(endp.dirs.bindings) && consumer !in endp.Repr()
    requires Listable(root, listing, endp.attrs.paths) && root == "/"
    requires op.path == "/" + name && name != "" && '/' !in name && op.path in endp.attrs.paths
    requires endp.remote.apply(endp.remote.state, op).1 == 0
    modifies endp.Repr(), consumer
    ensures endp.Valid() && endp.Grown() && endp.attrs.Aged()
    ensures (endp.remote.state, rc) == endp.remote.apply(old(endp.remote.state), op)
    ensures endp.attrs.Now() <= old(endp.attrs.Now()) + endp.attrs.Ttl() ==>
      AttrsThere(endp.attrs.bindings, root, listing, |listing|, old(endp.attrs.Now()))
    ensures AllListings(endp.dirs.bindings)
    ensures root in endp.dirs.bindings ==>
      && IsListing(endp.dirs.bindings[root].data) && NamesIn(endp.dirs.bindings[root].data) == Names(listing)
      && endp.dirs.bindings[root].stamp >= old(endp.dirs.Now())
    ensures endp.dirs.Now() >= old(endp.dirs.Now())
    ensures endp.dirs.Now() <= old(endp.dirs.Now()) + endp.dirs.Ttl() ==> root in endp.dirs.bindings
  {
    hide CachedEndpoint.Valid, CachedEndpoint.Repr, CachedEndpoint.Taken, AllListings, IsListing, Encode, Listable;
    hide AttrsThere, AttrsFrom, AttributesRight, Sourced, Kept, PurgedBoth, Purged, Within, NamesBefore, CoherentIn;
    hide SlashBlind, OwnPathOnly, OwnObjectOnly, SameAt, RootHarmless, Calls, Witnessed;
    ghost var start, dirs := endp.attrs.Now(), endp.dirs.bindings;
    assert Shown(listing, true, zero) == listing;
    var end';
    ghost var t;
    end', t := ReaddirFetching(endp, root, listing, end, true, zero, consumer);
    NothingBefore(dirs, endp.dirs.Ttl(), t, root);
    ghost var m, d := endp.attrs.bindings, endp.dirs.bindings;
    rc := endp.Change(op, []);
    ListedAfterChange(d, endp.dirs.bindings, endp.dirs.Ttl(), endp.dirs.Now(), name);
    ListingsWithin(d, endp.dirs.bindings);
    if endp.attrs.Now() <= start + endp.attrs.Ttl() {
      ThereAfterChange(m, endp.attrs.bindings, endp.attrs.Ttl(), endp.attrs.Now(), listing, start, name,
        op.OnDirectory());
    }
  }

  // What the remote says of the entry has changed, and under its other name it is still cached as it was.
  lemma OutOfDate<S(!new), A>(lookup: (S, string) -> Reply<A>, state: S, state': S, m: map<string, Binding<A>>,
        m': map<string, Binding<A>>, ttl: nat, now: nat, listing: seq<DirEntry<A>>, start: nat, i: nat)
    requires IsLast("/", listing, i, |listing|) && listing[i].name != "." && listing[i].name != ".."
    requires '/' !in listing[i].name && listing[i].name != "" && SlashBlind(lookup)
    requires lookup(state, EntryPath("/", listing[i].name)) == Found(listing[i].stat)
    requires lookup(state', "/" + listing[i].name) != lookup(state, "/" + listing[i].name)
    ensures lookup(state', "/" + listing[i].name) != Found(listing[i].stat)
    ensures AttrsThere(m, "/", listing, |listing|, start) && Kept(m', m, ttl, now) && now <= start + ttl ==>
      !CoherentIn(lookup, state', m')
  {
    var p := "/" + listing[i].name;
    assert EntryPath("/", listing[i].name) == Doubled(p) && Plain(p);
    assert lookup(state, Doubled(p)) == lookup(state, p) && lookup(state', Doubled(p)) == lookup(state', p);
  }

  /** The failing run, for every entry of every root and every operation that changes it: list the root,
      change the entry, and list the root again before anything expires. The second listing hands out
      the old attributes of the entry. */
  method StaleAtRoot<S(!new), A(0, !new)>(endp: CachedEndpoint<S, A>, root: string, listing: seq<DirEntry<A>>, end: int,
        i: nat, op: Op, zero: A, first: Consumer<A>, second: Consumer<A>)
      returns (rc: int, fetched: bool, ghost handed: seq<DirEntry<A>>)
    requires endp.Valid() && root in endp.attrs.paths && Canonical(root) && endp.dirs.Closed(root)
    requires root !in endp.dirs.bindings && AllListings(endp.dirs.bindings)
    requires first != second && first !in endp.Repr() && second !in endp.Repr()
    requires root == "/" && Listable(root, listing, endp.attrs.paths) && IsLast(root, listing, i, |listing|)
    requires SlashBlind(endp.remote.lookup)
    requires endp.remote.lookup(endp.remote.state, EntryPath(root, listing[i].name)) == Found(listing[i].stat)
    requires listing[i].name != "." && listing[i].name != ".." && '/' !in listing[i].name && listing[i].name != ""
    requires op.path == "/" + listing[i].name && op.path in endp.attrs.paths
    requires var after := endp.remote.apply(endp.remote.state, op);
      after.1 == 0 && endp.remote.lookup(after.0, op.path) != endp.remote.lookup(endp.remote.state, op.path)
    modifies endp.Repr(), first, second
    ensures endp.Valid() && (endp.remote.state, rc) == endp.remote.apply(old(endp.remote.state), op)
    ensures endp.remote.lookup(endp.remote.state, op.path) != Found(listing[i].stat)
    ensures var inTime := && endp.attrs.Now() <= old(endp.attrs.Now()) + endp.attrs.Ttl()
                          && endp.dirs.Now() <= old(endp.dirs.Now()) + endp.dirs.Ttl();
      inTime ==>
        && fetched && second.calls == Calls(handed, second.answer, old(second.calls))
        && |handed| == |listing| && (forall k :: 0 <= k < |handed| ==> handed[k].name == listing[k].name)
        && handed[i] == listing[i] && !endp.Coherent()
  {
    hide CachedEndpoint.Valid, CachedEndpoint.Repr, CachedEndpoint.Taken, AllListings, IsListing, Encode;
    hide AttrsThere, AttributesRight, AllAnswered, Sourced, Kept, CoherentIn, SlashBlind, Calls, PlusCalls, Names;
    ghost var lookup, state, ttl, start := endp.remote.lookup, endp.remote.state, endp.attrs.Ttl(), endp.attrs.Now();
    ghost var dirTtl, dirStart := endp.dirs.Ttl(), endp.dirs.Now();
    rc := ListAndChange(endp, root, listing, end, listing[i].name, op, zero, first);
    ghost var m, d, t, replies, first, count := endp.attrs.bindings, endp.dirs.bindings, 0, [], endp.attrs.Next(),
      endp.attrs.Count();
    fetched, t, replies := FetchDirEntries(endp, root, true, zero, second);
    endp.ClockShows(count);
    OutOfDate(lookup, state, endp.remote.state, m, endp.attrs.bindings, ttl, endp.attrs.Now(), listing, start, i);
    handed := [];
    if endp.attrs.Now() <= start + ttl && t <= dirStart + dirTtl {
      assert root in LiveMap(d, dirTtl, t);
      RepliesRemembered(lookup, endp.remote.state, m, ttl, first, endp.attrs.Now(), listing, start, replies, i);
      PlusAllFound(Names(listing), replies, second.answer, old(second.calls));
      handed := Handed(Names(listing), replies, |listing|);
    }
  }
}
