/** Reading directories through the cache: the callee that sftfs_cached_setup_dir_caching puts in
    between, and the listings that are replayed from the cache (src/endp/cached.c). */
module Readdirs {
  import opened Memory
  import opened Clocks
  import opened CacheStates
  import opened FileCaches
  import opened Strs
  import opened Listings
  import opened Paths
  import opened PathBuffers
  import opened Endpoints

  /** struct sftfs_endp_direntry */
  datatype DirEntry<A> = DirEntry(name: string, stat: A)

  /** Who the entries are for: it is called once an entry, and a result other than zero asks for no
      more. What it answers may depend on everything it was called with. */
  class Consumer<A> {
    var calls: seq<DirEntry<A>>
    const answer: seq<DirEntry<A>> -> int

    constructor (answer: seq<DirEntry<A>> -> int)
      ensures calls == [] && this.answer == answer
    {
      calls, this.answer := [], answer;
    }

    method Call(entry: DirEntry<A>) returns (rc: int)
      modifies this
      ensures calls == old(calls) + [entry] && rc == answer(calls)
    {
      calls := calls + [entry];
      rc := answer(calls);
    }
  }

  /** The calls made once these entries, too, were handed on until the consumer had enough. */
  ghost function Calls<A>(entries: seq<DirEntry<A>>, answer: seq<DirEntry<A>> -> int,
        made: seq<DirEntry<A>>): seq<DirEntry<A>>
  {
    if entries == [] then made
    else
      var made' := made + [entries[0]];
      if answer(made') != 0 then made' else Calls(entries[1..], answer, made')
  }

  /** That is one call an entry, in order, up to the first that is answered with anything but zero. */
  lemma {:induction false} CallsMade<A>(entries: seq<DirEntry<A>>, answer: seq<DirEntry<A>> -> int,
        made: seq<DirEntry<A>>) returns (n: nat)
    ensures n <= |entries| && Calls(entries, answer, made) == made + entries[..n]
    ensures forall k :: 0 < k < n ==> answer(made + entries[..k]) == 0
    ensures n < |entries| ==> n > 0 && answer(made + entries[..n]) != 0
  {
    n := 0;
    if entries != [] {
      var made' := made + [entries[0]];
      assert made + entries[..1] == made';
      n := 1;
      if answer(made') == 0 {
        var m := CallsMade(entries[1..], answer, made');
        n := m + 1;
        forall k | 0 < k <= n ensures made + entries[..k] == made' + entries[1..][..k - 1] {
        }
      }
    }
  }

  /** What the remote hands on of a listing: the attributes only if they were asked for. */
  ghost function Shown<A>(listing: seq<DirEntry<A>>, plus: bool, zero: A): (r: seq<DirEntry<A>>)
    ensures |r| == |listing|
    ensures forall i :: 0 <= i < |r| ==> r[i] == if plus then listing[i] else DirEntry(listing[i].name, zero)
  {
    seq(|listing|, i requires 0 <= i < |listing| => if plus then listing[i] else DirEntry(listing[i].name, zero))
  }

  ghost function Names<A>(listing: seq<DirEntry<A>>): (r: seq<string>)
    ensures |r| == |listing| && forall i :: 0 <= i < |r| ==> r[i] == listing[i].name
  {
    seq(|listing|, i requires 0 <= i < |listing| => listing[i].name)
  }

  /** Names without attributes, as a cached listing shows them. */
  ghost function Bare<A>(names: seq<string>, zero: A): (r: seq<DirEntry<A>>)
    ensures |r| == |names| && forall i :: 0 <= i < |r| ==> r[i] == DirEntry(names[i], zero)
  {
    seq(|names|, i requires 0 <= i < |names| => DirEntry(names[i], zero))
  }

  /** A listing shown without attributes is replayed from its names. */
  lemma BareNames<A>(listing: seq<DirEntry<A>>, zero: A)
    ensures Shown(listing, false, zero) == Bare(Names(listing), zero)
  {
  }

  lemma CallsOnward<A>(entries: seq<DirEntry<A>>, i: nat, answer: seq<DirEntry<A>> -> int, made: seq<DirEntry<A>>)
    requires i < |entries|
    ensures var made' := made + [entries[i]];
      Calls(entries[i..], answer, made) == if answer(made') != 0 then made' else Calls(entries[i + 1..], answer, made')
  {
    assert entries[i..][1..] == entries[i + 1..];
  }

  lemma CallsOver<A>(entries: seq<DirEntry<A>>, answer: seq<DirEntry<A>> -> int, made: seq<DirEntry<A>>)
    ensures Calls(entries[|entries|..], answer, made) == made
  {
  }

  /** sftfs_sftp_readdir with the consumer's own callee; `end` is 0 at the end of the listing, or the
      error that cut it short. */
  method ReaddirDirect<A>(listing: seq<DirEntry<A>>, end: int, plus: bool, zero: A, consumer: Consumer<A>)
      returns (rc: int)
    modifies consumer
    ensures consumer.calls == Calls(Shown(listing, plus, zero), consumer.answer, old(consumer.calls))
    ensures var shown, made := Shown(listing, plus, zero), old(consumer.calls);
      var enough := exists k :: 0 < k <= |listing| && consumer.answer(made + shown[..k]) != 0;
      if enough then rc == 0 else rc == end && consumer.calls == made + shown
  {
    hide Calls;
    ghost var shown := Shown(listing, plus, zero);
    var i := 0;
    while i < |listing|
      invariant 0 <= i <= |listing| && consumer.calls == old(consumer.calls) + shown[..i]
      invariant forall k :: 0 < k <= i ==> consumer.answer(old(consumer.calls) + shown[..k]) == 0
      invariant Calls(shown[i..], consumer.answer, consumer.calls) == Calls(shown, consumer.answer, old(consumer.calls))
    {
      CallsOnward(shown, i, consumer.answer, consumer.calls);
      var shouldStop := consumer.Call(if plus then listing[i] else DirEntry(listing[i].name, zero));
      assert consumer.calls == old(consumer.calls) + shown[..i + 1];
      if shouldStop != 0 {
        return 0;
      }
      i := i + 1;
    }
    CallsOver(shown, consumer.answer, consumer.calls);
    rc := end;
  }

  lemma StartOfFirst(names: seq<string>)
    ensures StartOf(names, 0) == 0
  {
  }

  /** fetch_dir_entries_without_attr, on the listing found in the cache. */
  method FetchWithoutAttr<A>(text: string, zero: A, consumer: Consumer<A>, ghost names: seq<string>)
    requires text == Encode(names) && NulFree(names) && "" !in names
    modifies consumer
    ensures consumer.calls == Calls(Bare(names, zero), consumer.answer, old(consumer.calls))
  {
    ghost var entries, k := Bare(names, zero), 0;
    var entry, curr := ReadDir(text + [NUL], 0, names, 0);
    while entry.Some?
      invariant k <= |names| && entry == if k < |names| then Some(names[k]) else None
      invariant entry.Some? ==> curr == StartOf(names, k + 1)
      invariant Calls(entries[k..], consumer.answer, consumer.calls) ==
        Calls(entries, consumer.answer, old(consumer.calls))
      decreases |names| - k
    {
      CallsOnward(entries, k, consumer.answer, consumer.calls);
      var rc := consumer.Call(DirEntry(entry.value, zero));
      if rc != 0 {
        break;
      }
      k := k + 1;
      entry, curr := ReadDir(text + [NUL], curr, names, k);
    }
  }

  /** The calls of a listing whose attributes are looked up one entry at a time, `replies` being what
      the lookups say, and whether every lookup succeeded that was made. */
  ghost function PlusCalls<A>(names: seq<string>, replies: seq<Reply<A>>, answer: seq<DirEntry<A>> -> int,
        made: seq<DirEntry<A>>): (seq<DirEntry<A>>, bool)
    requires |names| == |replies|
  {
    if names == [] then (made, true)
    else if replies[0].Failed? then (made, false)
    else
      var made' := made + [DirEntry(names[0], replies[0].attr)];
      if answer(made') != 0 then (made', true) else PlusCalls(names[1..], replies[1..], answer, made')
  }

  /** The first `k` entries, with the attributes found for them. */
  ghost function Handed<A>(names: seq<string>, replies: seq<Reply<A>>, k: nat): (r: seq<DirEntry<A>>)
    requires k <= |names| == |replies| && forall i :: 0 <= i < k ==> replies[i].Found?
    ensures |r| == k && forall i :: 0 <= i < k ==> r[i] == DirEntry(names[i], replies[i].attr)
  {
    seq(k, i requires 0 <= i < k => DirEntry(names[i], replies[i].attr))
  }

  /** Looking up one entry at a time hands entries on up to the first that the consumer had enough with or
      that could not be looked up; it went through unless that was why. */
  lemma {:induction false} PlusMade<A>(names: seq<string>, replies: seq<Reply<A>>, answer: seq<DirEntry<A>> -> int,
        made: seq<DirEntry<A>>) returns (n: nat)
    requires |names| == |replies|
    ensures n <= |names| && (forall i :: 0 <= i < n ==> replies[i].Found?)
    ensures PlusCalls(names, replies, answer, made).0 == made + Handed(names, replies, n)
    ensures forall k :: 0 < k < n ==> answer(made + Handed(names, replies, k)) == 0
    ensures var enough := n > 0 && answer(made + Handed(names, replies, n)) != 0;
      && PlusCalls(names, replies, answer, made).1 == (enough || n == |names|)
      && (!enough && n < |names| ==> replies[n].Failed?)
  {
    n := 0;
    if names != [] && replies[0].Found? {
      var e := DirEntry(names[0], replies[0].attr);
      assert Handed(names, replies, 1) == [e];
      n := 1;
      if answer(made + [e]) == 0 {
        var m := PlusMade(names[1..], replies[1..], answer, made + [e]);
        n := m + 1;
        forall k | 0 < k <= n
          ensures forall i :: 0 <= i < k ==> replies[i].Found?
          ensures made + Handed(names, replies, k) == made + [e] + Handed(names[1..], replies[1..], k - 1)
        {
          HandedFrom(names, replies, made, k);
        }
      }
    } else {
      assert made + Handed(names, replies, 0) == made;
    }
  }

  lemma HandedFrom<A>(names: seq<string>, replies: seq<Reply<A>>, made: seq<DirEntry<A>>, k: nat)
    requires 0 < k <= |names| == |replies| && replies[0].Found?
    requires forall i :: 0 <= i < k - 1 ==> replies[1..][i].Found?
    ensures forall i :: 0 <= i < k ==> replies[i].Found?
    ensures made + Handed(names, replies, k) ==
      made + [DirEntry(names[0], replies[0].attr)] + Handed(names[1..], replies[1..], k - 1)
  {
    forall i | 0 <= i < k ensures replies[i].Found? {
      assert i > 0 ==> replies[1..][i - 1].Found?;
    }
  }

  /** The lookup of entry `k` is the first to fail, and the consumer asked for more until then. */
  ghost predicate FailsAt<A>(names: seq<string>, replies: seq<Reply<A>>, answer: seq<DirEntry<A>> -> int,
        made: seq<DirEntry<A>>, k: int)
    requires |names| == |replies|
  {
    && 0 <= k < |names| && replies[k].Failed?
    && (forall i :: 0 <= i < k ==> replies[i].Found?)
    && (forall i :: 0 < i <= k ==> answer(made + Handed(names, replies, i)) == 0)
  }

  /** Looking up one entry at a time breaks off exactly at the first lookup that fails while the
      consumer asks for more; by then the entries before it have been handed on. */
  lemma {:induction false} BreaksOffIff<A>(names: seq<string>, replies: seq<Reply<A>>, answer: seq<DirEntry<A>> -> int,
        made: seq<DirEntry<A>>)
    requires |names| == |replies|
    ensures !PlusCalls(names, replies, answer, made).1 <==> exists k :: FailsAt(names, replies, answer, made, k)
    ensures forall k :: FailsAt(names, replies, answer, made, k) ==>
      PlusCalls(names, replies, answer, made).0 == made + Handed(names, replies, k)
  {
    if names != [] && replies[0].Found? {
      var e := DirEntry(names[0], replies[0].attr);
      BreaksOffIff(names[1..], replies[1..], answer, made + [e]);
      forall k | FailsAt(names, replies, answer, made, k)
        ensures k > 0 && answer(made + [e]) == 0 && FailsAt(names[1..], replies[1..], answer, made + [e], k - 1)
        ensures made + Handed(names, replies, k) == made + [e] + Handed(names[1..], replies[1..], k - 1)
      {
        HandedOnward(names, replies, answer, made, k);
      }
      if answer(made + [e]) == 0 {
        forall k | FailsAt(names[1..], replies[1..], answer, made + [e], k)
          ensures FailsAt(names, replies, answer, made, k + 1)
        {
          FailsOnward(names, replies, answer, made, k);
        }
      }
    } else if names != [] {
      assert FailsAt(names, replies, answer, made, 0);
      assert Handed(names, replies, 0) == [];
    }
  }

  /** If every lookup succeeds, every entry is handed on until the consumer has had enough. */
  lemma {:induction false} PlusAllFound<A>(names: seq<string>, replies: seq<Reply<A>>, answer: seq<DirEntry<A>> -> int,
        made: seq<DirEntry<A>>)
    requires |names| == |replies| && forall i :: 0 <= i < |replies| ==> replies[i].Found?
    ensures PlusCalls(names, replies, answer, made) == (Calls(Handed(names, replies, |names|), answer, made), true)
  {
    if names != [] {
      assert Handed(names, replies, |names|)[1..] == Handed(names[1..], replies[1..], |names| - 1);
      PlusAllFound(names[1..], replies[1..], answer, made + [DirEntry(names[0], replies[0].attr)]);
    }
  }

  lemma HandedOnward<A>(names: seq<string>, replies: seq<Reply<A>>, answer: seq<DirEntry<A>> -> int,
        made: seq<DirEntry<A>>, k: int)
    requires |names| == |replies| && names != [] && replies[0].Found? && FailsAt(names, replies, answer, made, k)
    ensures var e := DirEntry(names[0], replies[0].attr);
      && k > 0 && answer(made + [e]) == 0 && FailsAt(names[1..], replies[1..], answer, made + [e], k - 1)
      && made + Handed(names, replies, k) == made + [e] + Handed(names[1..], replies[1..], k - 1)
  {
    var e := DirEntry(names[0], replies[0].attr);
    assert Handed(names, replies, 1) == [e];
    forall i | 0 <= i < k
      ensures made + Handed(names, replies, i + 1) == made + [e] + Handed(names[1..], replies[1..], i)
    {
    }
  }

  lemma FailsOnward<A>(names: seq<string>, replies: seq<Reply<A>>, answer: seq<DirEntry<A>> -> int,
        made: seq<DirEntry<A>>, k: int)
    requires |names| == |replies| && names != [] && replies[0].Found?
    requires answer(made + [DirEntry(names[0], replies[0].attr)]) == 0
    requires FailsAt(names[1..], replies[1..], answer, made + [DirEntry(names[0], replies[0].attr)], k)
    ensures FailsAt(names, replies, answer, made, k + 1)
  {
    var e := DirEntry(names[0], replies[0].attr);
    forall i | 0 <= i <= k ensures replies[i].Found? {
      assert i > 0 ==> replies[1..][i - 1].Found?;
    }
    forall i | 0 < i <= k + 1 ensures answer(made + Handed(names, replies, i)) == 0 {
      assert made + Handed(names, replies, i) == made + [e] + Handed(names[1..], replies[1..], i - 1);
      if i == 1 {
        assert made + Handed(names, replies, 1) == made + [e];
      }
    }
  }

  /** After the lookups answered by `replies` the calls made are `calls`, and what comes depends on the
      lookups to come only. */
  ghost predicate SoFar<A(!new)>(names: seq<string>, replies: seq<Reply<A>>, answer: seq<DirEntry<A>> -> int,
        made: seq<DirEntry<A>>, calls: seq<DirEntry<A>>)
  {
    && |replies| <= |names|
    && forall rest: seq<Reply<A>> {:trigger replies + rest} :: |replies| + |rest| == |names| ==>
         PlusCalls(names, replies + rest, answer, made) == PlusCalls(names[|replies|..], rest, answer, calls)
  }

  lemma NothingSoFar<A(!new)>(names: seq<string>, answer: seq<DirEntry<A>> -> int, made: seq<DirEntry<A>>)
    ensures SoFar(names, [], answer, made, made)
  {
    forall rest: seq<Reply<A>> | |rest| == |names|
      ensures PlusCalls(names, [] + rest, answer, made) == PlusCalls(names[0..], rest, answer, made)
    {
      assert [] + rest == rest && names[0..] == names;
    }
  }

  lemma OneMoreLookup<A(!new)>(names: seq<string>, replies: seq<Reply<A>>, answer: seq<DirEntry<A>> -> int,
        made: seq<DirEntry<A>>, calls: seq<DirEntry<A>>, r: Reply<A>)
    requires SoFar(names, replies, answer, made, calls) && |replies| < |names| && r.Found?
    requires answer(calls + [DirEntry(names[|replies|], r.attr)]) == 0
    ensures SoFar(names, replies + [r], answer, made, calls + [DirEntry(names[|replies|], r.attr)])
  {
    var k, calls' := |replies|, calls + [DirEntry(names[|replies|], r.attr)];
    forall rest: seq<Reply<A>> | k + 1 + |rest| == |names|
      ensures PlusCalls(names, (replies + [r]) + rest, answer, made) == PlusCalls(names[k + 1..], rest, answer, calls')
    {
      assert (replies + [r]) + rest == replies + ([r] + rest);
      assert names[k..][1..] == names[k + 1..] && ([r] + rest)[1..] == rest;
    }
  }

  // The lookup after which the listing ends: it failed, or the consumer had enough.
  lemma LastLookup<A(!new)>(names: seq<string>, replies: seq<Reply<A>>, answer: seq<DirEntry<A>> -> int,
        made: seq<DirEntry<A>>, calls: seq<DirEntry<A>>, rest: seq<Reply<A>>)
    requires SoFar(names, replies, answer, made, calls) && |replies| + |rest| == |names|
    ensures rest == [] ==> PlusCalls(names, replies + rest, answer, made) == (calls, true)
    ensures rest != [] && rest[0].Failed? ==> PlusCalls(names, replies + rest, answer, made) == (calls, false)
    ensures rest != [] && rest[0].Found? && answer(calls + [DirEntry(names[|replies|], rest[0].attr)]) != 0 ==>
      PlusCalls(names, replies + rest, answer, made) == (calls + [DirEntry(names[|replies|], rest[0].attr)], true)
  {
  }

  /** Each reply is what a cached getattr may answer for its entry. */
  ghost predicate AllAnswered<S, A>(lookup: (S, string) -> Reply<A>, state: S, m: map<string, Binding<A>>, ttl: nat,
        first: nat, t: nat, path: string, names: seq<string>, replies: seq<Reply<A>>)
    requires Absolute(path) && |replies| <= |names|
  {
    forall i :: 0 <= i < |replies| ==> Answered(lookup, state, m, ttl, first, t, EntryPath(path, names[i]), replies[i])
  }

  lemma AnsweredLater<S, A>(lookup: (S, string) -> Reply<A>, state: S, m: map<string, Binding<A>>, ttl: nat, first: nat,
        t: nat, t': nat, path: string, names: seq<string>, replies: seq<Reply<A>>, r: Reply<A>)
    requires Absolute(path) && |replies| < |names| && t <= t'
    requires AllAnswered(lookup, state, m, ttl, first, t, path, names, replies)
    requires Answered(lookup, state, m, ttl, first, t', EntryPath(path, names[|replies|]), r)
    ensures AllAnswered(lookup, state, m, ttl, first, t', path, names, replies + [r])
  {
  }

  // One more lookup, on what the lookups before it have left.
  lemma OneMoreAnswered<S, A>(lookup: (S, string) -> Reply<A>, state: S, m: map<string, Binding<A>>,
        m1: map<string, Binding<A>>, m2: map<string, Binding<A>>, ttl: nat, first: nat, first': nat, t1: nat, t2: nat,
        path: string, names: seq<string>, replies: seq<Reply<A>>, r: Reply<A>)
    requires Absolute(path) && |replies| < |names| && t1 <= t2 && first <= first'
    requires m1 != map[] ==> first' <= t2
    requires Sourced(lookup, state, m1, m) && Kept(m1, m, ttl, t1)
    requires AllAnswered(lookup, state, m, ttl, first, t1, path, names, replies)
    requires Answered(lookup, state, m1, ttl, first', t2, EntryPath(path, names[|replies|]), r)
    requires Sourced(lookup, state, m2, m1) && Kept(m2, m1, ttl, t2)
    ensures Sourced(lookup, state, m2, m) && Kept(m2, m, ttl, t2)
    ensures AllAnswered(lookup, state, m, ttl, first, t2, path, names, replies + [r])
  {
    AnsweredOn(lookup, state, m, m1, ttl, first, first', t1, t2, EntryPath(path, names[|replies|]), r);
    SourcedOn(lookup, state, m, m1, m2, ttl, t1, t2);
    AnsweredLater(lookup, state, m, ttl, first, t1, t2, path, names, replies, r);
  }

  // Lookups that were not made could have been answered, too.
  lemma FillUp<S, A>(lookup: (S, string) -> Reply<A>, state: S, m: map<string, Binding<A>>, ttl: nat, first: nat,
        t: nat, path: string, names: seq<string>, replies: seq<Reply<A>>) returns (rest: seq<Reply<A>>)
    requires Absolute(path) && |replies| <= |names|
    requires AllAnswered(lookup, state, m, ttl, first, t, path, names, replies)
    ensures |replies| + |rest| == |names| && AllAnswered(lookup, state, m, ttl, first, t, path, names, replies + rest)
  {
    var k := |replies|;
    rest := seq(|names| - k, i requires 0 <= i < |names| - k =>
      var p := EntryPath(path, names[k + i]);
      if p in m && !Expired(m[p].stamp, ttl, first) && !Expired(m[p].stamp, ttl, t) then Found(m[p].data)
      else lookup(state, p));
    forall i | 0 <= i < |names|
      ensures Answered(lookup, state, m, ttl, first, t, EntryPath(path, names[i]), (replies + rest)[i])
    {
      assert i < k ==> (replies + rest)[i] == replies[i];
      assert i >= k ==> (replies + rest)[i] == rest[i - k];
    }
  }

  // Nothing more is looked up after `r`: what comes of it, and how it could have gone on.
  lemma LookupsEnd<S, A(!new)>(lookup: (S, string) -> Reply<A>, state: S, m: map<string, Binding<A>>, ttl: nat,
        first: nat, t: nat, path: string, names: seq<string>, asked: seq<Reply<A>>, r: Reply<A>,
        answer: seq<DirEntry<A>> -> int, made: seq<DirEntry<A>>, calls: seq<DirEntry<A>>)
      returns (replies: seq<Reply<A>>)
    requires Absolute(path) && SoFar(names, asked, answer, made, calls) && |asked| < |names|
    requires AllAnswered(lookup, state, m, ttl, first, t, path, names, asked + [r])
    requires r.Found? ==> answer(calls + [DirEntry(names[|asked|], r.attr)]) != 0
    ensures |replies| == |names| && AllAnswered(lookup, state, m, ttl, first, t, path, names, replies)
    ensures PlusCalls(names, replies, answer, made) ==
      if r.Found? then (calls + [DirEntry(names[|asked|], r.attr)], true) else (calls, false)
  {
    hide AllAnswered, SoFar, PlusCalls;
    var rest := FillUp(lookup, state, m, ttl, first, t, path, names, asked + [r]);
    LastLookup(names, asked, answer, made, calls, [r] + rest);
    assert asked + ([r] + rest) == asked + [r] + rest;
    replies := asked + [r] + rest;
  }

  /** On a coherent cache every reply is the remote's. */
  lemma AllRight<S, A>(lookup: (S, string) -> Reply<A>, state: S, m: map<string, Binding<A>>, ttl: nat, first: nat,
        t: nat, path: string, names: seq<string>, replies: seq<Reply<A>>)
    requires Absolute(path) && |replies| <= |names| && CoherentIn(lookup, state, m)
    requires AllAnswered(lookup, state, m, ttl, first, t, path, names, replies)
    ensures forall i :: 0 <= i < |replies| ==> replies[i] == lookup(state, EntryPath(path, names[i]))
  {
  }

  /** Every entry of the directory is at a path in use. */
  ghost predicate EntriesKnown(path: string, names: seq<string>, paths: iset<string>)
    requires Absolute(path)
  {
    forall i :: 0 <= i < |names| ==> NUL !in names[i] && EntryPath(path, names[i]) in paths
  }

  // Pushing an entry, and what the buffer then stands for.
  method NameEntry(buffer: Str, entry: string, ghost path: string) returns (entryPath: string)
    requires buffer.Valid() && Canonical(path) && buffer.Text() == path && NUL !in entry
    modifies buffer, buffer.c
    ensures buffer.Valid() && Pushed(buffer.Text(), path, entry) && (buffer.c == old(buffer.c) || fresh(buffer.c))
    ensures entryPath == EntryPath(path, entry)
  {
    PushEntry(buffer, entry, path);
    entryPath := Current(buffer, path, entry);
  }

  // The body of the loop of fetch_dir_entries_with_attr up to the callee: the attributes of one entry.
  method LookUpEntry<S(!new), A(0, !new)>(endp: CachedEndpoint<S, A>, buffer: Str, entry: string, ghost path: string)
      returns (r: Reply<A>)
    requires endp.Valid() && buffer.Valid() && {buffer, buffer.c} !! endp.Repr()
    requires Canonical(path) && buffer.Text() == path && NUL !in entry && EntryPath(path, entry) in endp.attrs.paths
    modifies endp.Repr(), buffer, buffer.c
    ensures endp.Valid() && endp.Grown()
    ensures buffer.Valid() && Pushed(buffer.Text(), path, entry) && (buffer.c == old(buffer.c) || fresh(buffer.c))
    ensures {buffer, buffer.c} !! endp.Repr() && endp.remote.state == old(endp.remote.state)
    ensures endp.dirs.bindings == old(endp.dirs.bindings) && endp.Taken() == old(endp.Taken())
    ensures endp.dirs.Now() == old(endp.dirs.Now()) && endp.attrs.Aged()
    ensures old(endp.attrs.bindings) != map[] ==> endp.attrs.Count() > old(endp.attrs.Count())
    ensures Answered(endp.remote.lookup, endp.remote.state, old(endp.attrs.bindings), endp.attrs.Ttl(),
                     old(endp.attrs.Next()), endp.attrs.Now(), EntryPath(path, entry), r)
    ensures Sourced(endp.remote.lookup, endp.remote.state, endp.attrs.bindings, old(endp.attrs.bindings))
    ensures Kept(endp.attrs.bindings, old(endp.attrs.bindings), endp.attrs.Ttl(), endp.attrs.Now())
  {
    hide CachedEndpoint.Valid, CachedEndpoint.Repr, CachedEndpoint.Taken, Pushed, EntryPath, Str.Valid, Str.Text;
    hide Answered, Sourced, Kept;
    endp.ReprAllocated();
    var entryPath := NameEntry(buffer, entry, path);
    r := endp.Stat(entryPath);
  }

  // The callee is called and the entry popped.
  method HandOn<A>(entry: DirEntry<A>, consumer: Consumer<A>, buffer: Str, pathSize: nat, ghost path: string)
      returns (shouldStop: int)
    requires buffer.Valid() && Canonical(path) && NUL !in entry.name && Pushed(buffer.Text(), path, entry.name)
    requires pathSize == |path|
    modifies consumer, buffer, buffer.c
    ensures consumer.calls == old(consumer.calls) + [entry] && shouldStop == consumer.answer(consumer.calls)
    ensures buffer.Valid() && buffer.Text() == path && buffer.c == old(buffer.c)
  {
    shouldStop := consumer.Call(entry);
    PopEntry(buffer, pathSize, path, entry.name);
  }

  // One round of the loop of fetch_dir_entries_with_attr.
  method PlusRound<S(!new), A(0, !new)>(endp: CachedEndpoint<S, A>, buffer: Str, entry: string, consumer: Consumer<A>,
        pathSize: nat, ghost path: string) returns (r: Reply<A>, shouldStop: int)
    requires endp.Valid() && buffer.Valid() && {buffer, buffer.c, consumer} !! endp.Repr() && pathSize == |path|
    requires Canonical(path) && buffer.Text() == path && NUL !in entry && EntryPath(path, entry) in endp.attrs.paths
    modifies endp.Repr(), buffer, buffer.c, consumer
    ensures endp.Valid() && endp.Grown() && endp.remote.state == old(endp.remote.state)
    ensures endp.dirs.bindings == old(endp.dirs.bindings) && endp.Taken() == old(endp.Taken())
    ensures endp.dirs.Now() == old(endp.dirs.Now())
    ensures buffer.Valid() && (buffer.c == old(buffer.c) || fresh(buffer.c))
    ensures {buffer, buffer.c, consumer} !! endp.Repr()
    ensures endp.attrs.Aged()
    ensures old(endp.attrs.bindings) != map[] ==> endp.attrs.Count() > old(endp.attrs.Count())
    ensures Answered(endp.remote.lookup, endp.remote.state, old(endp.attrs.bindings), endp.attrs.Ttl(),
                     old(endp.attrs.Next()), endp.attrs.Now(), EntryPath(path, entry), r)
    ensures Sourced(endp.remote.lookup, endp.remote.state, endp.attrs.bindings, old(endp.attrs.bindings))
    ensures Kept(endp.attrs.bindings, old(endp.attrs.bindings), endp.attrs.Ttl(), endp.attrs.Now())
    ensures r.Failed? ==> consumer.calls == old(consumer.calls)
    ensures r.Found? ==> buffer.Text() == path && consumer.calls == old(consumer.calls) + [DirEntry(entry, r.attr)]
    ensures r.Found? ==> shouldStop == consumer.answer(consumer.calls)
  {
    hide CachedEndpoint.Valid, CachedEndpoint.Repr, CachedEndpoint.Taken, Pushed, EntryPath, Str.Valid, Str.Text;
    hide Answered, Sourced, Kept;
    shouldStop := 0;
    r := LookUpEntry(endp, buffer, entry, path);
    endp.ReprAllocated();
    if r.Found? {
      shouldStop := HandOn(DirEntry(entry, r.attr), consumer, buffer, pathSize, path);
    }
  }

  /** What the lookups so far were answered, and what they left of the `m` that was cached when the clock
      had been read `count` times. */
  ghost predicate LookedUp<S(!new), A(0, !new)>(endp: CachedEndpoint<S, A>, m: map<string, Binding<A>>, count: nat,
        path: string, names: seq<string>, asked: seq<Reply<A>>)
    requires Absolute(path) && |asked| <= |names|
    reads endp, endp.remote, endp.attrs, endp.attrs.cache.list.clock
  {
    var lookup, state, ttl, now := endp.remote.lookup, endp.remote.state, endp.attrs.Ttl(), endp.attrs.Now();
    && count <= endp.attrs.Count() && (asked != [] && m != map[] ==> count < endp.attrs.Count())
    && (asked == [] ==> endp.attrs.bindings == m)
    && Sourced(lookup, state, endp.attrs.bindings, m) && Kept(endp.attrs.bindings, m, ttl, now)
    && AllAnswered(lookup, state, m, ttl, endp.attrs.cache.list.clock.reading(count), now, path, names, asked)
  }

  // One round of the loop of fetch_dir_entries_with_attr, and what it adds to the lookups so far.
  method PlusStep<S(!new), A(0, !new)>(endp: CachedEndpoint<S, A>, buffer: Str, entry: string, consumer: Consumer<A>,
        pathSize: nat, ghost path: string, ghost m: map<string, Binding<A>>, ghost count: nat, ghost names: seq<string>,
        ghost asked: seq<Reply<A>>) returns (r: Reply<A>, shouldStop: int)
    requires endp.Valid() && buffer.Valid() && {buffer, buffer.c, consumer} !! endp.Repr() && pathSize == |path|
    requires Canonical(path) && buffer.Text() == path && NUL !in entry && EntryPath(path, entry) in endp.attrs.paths
    requires |asked| < |names| && entry == names[|asked|] && LookedUp(endp, m, count, path, names, asked)
    modifies endp.Repr(), buffer, buffer.c, consumer
    ensures endp.Valid() && endp.Grown() && endp.remote.state == old(endp.remote.state) && endp.attrs.Aged()
    ensures endp.dirs.bindings == old(endp.dirs.bindings) && endp.Taken() == old(endp.Taken())
    ensures endp.dirs.Now() == old(endp.dirs.Now())
    ensures buffer.Valid() && (buffer.c == old(buffer.c) || fresh(buffer.c))
    ensures {buffer, buffer.c, consumer} !! endp.Repr()
    ensures LookedUp(endp, m, count, path, names, asked + [r])
    ensures r.Failed? ==> consumer.calls == old(consumer.calls)
    ensures r.Found? ==> buffer.Text() == path && consumer.calls == old(consumer.calls) + [DirEntry(entry, r.attr)]
    ensures r.Found? ==> shouldStop == consumer.answer(consumer.calls)
  {
    hide CachedEndpoint.Valid, CachedEndpoint.Repr, CachedEndpoint.Taken, EntryPath, Str.Valid, Str.Text, Answered;
    hide Sourced, Kept, AllAnswered;
    ghost var m1, t1, next, k := endp.attrs.bindings, endp.attrs.Now(), endp.attrs.Next(), endp.attrs.Count();
    endp.ClockShows(count);
    r, shouldStop := PlusRound(endp, buffer, entry, consumer, pathSize, path);
    endp.ClockShows(k);
    OneMoreAnswered(endp.remote.lookup, endp.remote.state, m, m1, endp.attrs.bindings, endp.attrs.Ttl(),
      endp.attrs.cache.list.clock.reading(count), next, t1, endp.attrs.Now(), path, names, asked, r);
  }

  // The loop of fetch_dir_entries_with_attr.
  method ReplayEntries<S(!new), A(0, !new)>(endp: CachedEndpoint<S, A>, buffer: Str, path: string, text: string,
        consumer: Consumer<A>, ghost names: seq<string>) returns (success: bool, ghost replies: seq<Reply<A>>)
    requires endp.Valid() && buffer.Valid() && {buffer, buffer.c, consumer} !! endp.Repr() && buffer.Text() == path
    requires Canonical(path) && EntriesKnown(path, names, endp.attrs.paths)
    requires text == Encode(names) && "" !in names
    modifies endp.Repr(), consumer, buffer, buffer.c
    ensures endp.Valid() && endp.Grown() && endp.remote.state == old(endp.remote.state)
    ensures endp.dirs.bindings == old(endp.dirs.bindings) && endp.Taken() == old(endp.Taken())
    ensures endp.dirs.Now() == old(endp.dirs.Now()) && endp.attrs.Aged()
    ensures names != [] && old(endp.attrs.bindings) != map[] ==> endp.attrs.Count() > old(endp.attrs.Count())
    ensures Sourced(endp.remote.lookup, endp.remote.state, endp.attrs.bindings, old(endp.attrs.bindings))
    ensures Kept(endp.attrs.bindings, old(endp.attrs.bindings), endp.attrs.Ttl(), endp.attrs.Now())
    ensures |replies| == |names|
    ensures AllAnswered(endp.remote.lookup, endp.remote.state, old(endp.attrs.bindings), endp.attrs.Ttl(),
                        old(endp.attrs.Next()), endp.attrs.Now(), path, names, replies)
    ensures (consumer.calls, success) == PlusCalls(names, replies, consumer.answer, old(consumer.calls))
  {
    hide CachedEndpoint.Valid, CachedEndpoint.Repr, CachedEndpoint.Taken, EntryPath, Encode, StartOf, Str.Valid;
    hide Str.Text;
    hide Answered, Sourced, Kept, AllAnswered, SoFar, PlusCalls;
    hide FileCache.Repr, LookedUp;
    endp.ReprAllocated();
    ghost var state, m := endp.remote.state, endp.attrs.bindings;
    ghost var made, asked, count := consumer.calls, [], endp.attrs.Count();
    success, replies := true, [];
    StartOfFirst(names);
    NothingSoFar(names, consumer.answer, made);
    NothingLookedUp(endp, path, names);
    var entry, curr := ReadDir(text + [NUL], 0, names, 0);
    while entry.Some?
      invariant endp.Valid() && endp.Grown() && consumer !in endp.Repr()
      invariant buffer.Valid() && buffer.Text() == path && (buffer.c == old(buffer.c) || fresh(buffer.c))
      invariant {buffer, buffer.c} !! endp.Repr()
      invariant |asked| <= |names| && entry == if |asked| < |names| then Some(names[|asked|]) else None
      invariant entry.Some? ==> curr == StartOf(names, |asked| + 1)
      invariant endp.remote.state == state && endp.dirs.bindings == old(endp.dirs.bindings)
      invariant endp.Taken() == old(endp.Taken())
      invariant success && endp.attrs.Aged() && endp.dirs.Now() == old(endp.dirs.Now())
      invariant LookedUp(endp, m, count, path, names, asked)
      invariant SoFar(names, asked, consumer.answer, made, consumer.calls)
      decreases |names| - |asked|
    {
      ghost var calls := consumer.calls;
      var r, shouldStop := PlusStep(endp, buffer, entry.value, consumer, |path|, path, m, count, names, asked);
      if r.Failed? || shouldStop != 0 {
        success := r.Found?;
        replies := StepsEnd(endp, m, count, path, names, asked, r, consumer.answer, made, calls);
        return;
      }
      OneMoreLookup(names, asked, consumer.answer, made, calls, r);
      asked := asked + [r];
      endp.ReprAllocated();
      entry, curr := ReadDir(text + [NUL], curr, names, |asked|);
    }
    LookupsDone(endp, m, count, path, names, asked);
    AllLookedUp(names, asked, consumer.answer, made, consumer.calls);
    replies := asked;
  }

  // Every entry was looked up.
  lemma AllLookedUp<A(!new)>(names: seq<string>, asked: seq<Reply<A>>, answer: seq<DirEntry<A>> -> int,
        made: seq<DirEntry<A>>, calls: seq<DirEntry<A>>)
    requires SoFar(names, asked, answer, made, calls) && |asked| == |names|
    ensures PlusCalls(names, asked, answer, made) == (calls, true)
  {
    LastLookup(names, asked, answer, made, calls, []);
    assert asked + [] == asked;
  }

  // The lookup that was just made is the last one.
  lemma StepsEnd<S(!new), A(0, !new)>(endp: CachedEndpoint<S, A>, m: map<string, Binding<A>>, count: nat, path: string,
        names: seq<string>, asked: seq<Reply<A>>, r: Reply<A>, answer: seq<DirEntry<A>> -> int, made: seq<DirEntry<A>>,
        calls: seq<DirEntry<A>>) returns (replies: seq<Reply<A>>)
    requires Absolute(path) && |asked| < |names| && LookedUp(endp, m, count, path, names, asked + [r])
    requires SoFar(names, asked, answer, made, calls)
    requires r.Found? ==> answer(calls + [DirEntry(names[|asked|], r.attr)]) != 0
    ensures m != map[] ==> count < endp.attrs.Count()
    ensures Sourced(endp.remote.lookup, endp.remote.state, endp.attrs.bindings, m)
    ensures Kept(endp.attrs.bindings, m, endp.attrs.Ttl(), endp.attrs.Now())
    ensures |replies| == |names|
    ensures AllAnswered(endp.remote.lookup, endp.remote.state, m, endp.attrs.Ttl(),
              endp.attrs.cache.list.clock.reading(count), endp.attrs.Now(), path, names, replies)
    ensures PlusCalls(names, replies, answer, made) ==
      if r.Found? then (calls + [DirEntry(names[|asked|], r.attr)], true) else (calls, false)
  {
    hide LookedUp, AllAnswered, SoFar, PlusCalls, Sourced, Kept;
    LookupsDone(endp, m, count, path, names, asked + [r]);
    replies := LookupsEnd(endp.remote.lookup, endp.remote.state, m, endp.attrs.Ttl(),
      endp.attrs.cache.list.clock.reading(count), endp.attrs.Now(), path, names, asked, r, answer, made, calls);
  }

  lemma NothingLookedUp<S(!new), A(0, !new)>(endp: CachedEndpoint<S, A>, path: string, names: seq<string>)
    requires Absolute(path)
    ensures LookedUp(endp, endp.attrs.bindings, endp.attrs.Count(), path, names, [])
  {
  }

  lemma LookupsDone<S(!new), A(0, !new)>(endp: CachedEndpoint<S, A>, m: map<string, Binding<A>>, count: nat,
        path: string, names: seq<string>, asked: seq<Reply<A>>)
    requires Absolute(path) && |asked| <= |names| && LookedUp(endp, m, count, path, names, asked)
    ensures asked != [] && m != map[] ==> count < endp.attrs.Count()
    ensures Sourced(endp.remote.lookup, endp.remote.state, endp.attrs.bindings, m)
    ensures Kept(endp.attrs.bindings, m, endp.attrs.Ttl(), endp.attrs.Now())
    ensures AllAnswered(endp.remote.lookup, endp.remote.state, m, endp.attrs.Ttl(),
              endp.attrs.cache.list.clock.reading(count), endp.attrs.Now(), path, names, asked)
  {
  }

  /** fetch_dir_entries_with_attr, on the listing found in the cache: each entry comes with what the
      cached getattr answers for its path. */
  method FetchWithAttr<S(!new), A(0, !new)>(endp: CachedEndpoint<S, A>, path: string, text: string,
        consumer: Consumer<A>, ghost names: seq<string>) returns (success: bool, ghost replies: seq<Reply<A>>)
    requires endp.Valid() && consumer !in endp.Repr()
    requires Canonical(path) && EntriesKnown(path, names, endp.attrs.paths)
    requires text == Encode(names) && "" !in names
    modifies endp.Repr(), consumer
    ensures endp.Valid() && endp.Grown() && endp.remote.state == old(endp.remote.state)
    ensures endp.dirs.bindings == old(endp.dirs.bindings) && endp.Taken() == old(endp.Taken())
    ensures endp.dirs.Now() == old(endp.dirs.Now()) && endp.attrs.Aged()
    ensures names != [] && old(endp.attrs.bindings) != map[] ==> endp.attrs.Count() > old(endp.attrs.Count())
    ensures Sourced(endp.remote.lookup, endp.remote.state, endp.attrs.bindings, old(endp.attrs.bindings))
    ensures Kept(endp.attrs.bindings, old(endp.attrs.bindings), endp.attrs.Ttl(), endp.attrs.Now())
    ensures |replies| == |names|
    ensures AllAnswered(endp.remote.lookup, endp.remote.state, old(endp.attrs.bindings), endp.attrs.Ttl(),
                        old(endp.attrs.Next()), endp.attrs.Now(), path, names, replies)
    ensures (consumer.calls, success) == PlusCalls(names, replies, consumer.answer, old(consumer.calls))
  {
    hide CachedEndpoint.Valid, CachedEndpoint.Repr, CachedEndpoint.Taken, Encode, Str.Valid, Str.Text;
    hide Answered, Sourced, Kept, AllAnswered, PlusCalls;
    endp.ReprAllocated();
    var buffer := new Str(Some(path), |path|);
    success, replies := ReplayEntries(endp, buffer, path, text, consumer, names);
  }

  lemma NothingAsked<S, A>(lookup: (S, string) -> Reply<A>, state: S, m: map<string, Binding<A>>, ttl: nat, first: nat,
        t: nat, path: string, names: seq<string>)
    requires Absolute(path)
    ensures AllAnswered(lookup, state, m, ttl, first, t, path, names, [])
    ensures Sourced(lookup, state, m, m) && Kept(m, m, ttl, t)
  {
  }

  lemma EncodeOneMore(names: seq<string>, name: string)
    ensures Encode(names + [name]) == Encode(names) + name + [NUL]
  {
    assert (names + [name])[..|names|] == names;
  }

  lemma NameOnward<A>(listing: seq<DirEntry<A>>, i: nat, path: string, paths: iset<string>)
    requires i < |listing| && Absolute(path) && NulFree(Names(listing)) && EntriesKnown(path, Names(listing), paths)
    ensures NUL !in listing[i].name && EntryPath(path, listing[i].name) in paths
    ensures Names(listing)[..i + 1] == Names(listing)[..i] + [listing[i].name]
  {
    assert Names(listing)[i] == listing[i].name;
  }

  /** Of the first `k` entries, entry `i` is the last one at its path. */
  ghost predicate IsLast<A>(path: string, shown: seq<DirEntry<A>>, i: int, k: nat)
    requires Absolute(path)
  {
    0 <= i < k <= |shown| && forall j :: i < j < k ==> EntryPath(path, shown[j].name) != EntryPath(path, shown[i].name)
  }

  lemma {:induction false} LastExists<A>(path: string, shown: seq<DirEntry<A>>, i: nat, k: nat) returns (j: nat)
    requires Absolute(path) && i < k <= |shown|
    ensures IsLast(path, shown, j, k) && EntryPath(path, shown[j].name) == EntryPath(path, shown[i].name)
    decreases k - i
  {
    j := i;
    if !IsLast(path, shown, i, k) {
      var i' :| i < i' < k && EntryPath(path, shown[i'].name) == EntryPath(path, shown[i].name);
      j := LastExists(path, shown, i', k);
    }
  }

  /** Every entry, if it is the last one at its path, comes with the attributes the remote holds there. */
  ghost predicate AttributesRight<S, A>(lookup: (S, string) -> Reply<A>, state: S, path: string,
        shown: seq<DirEntry<A>>)
    requires Absolute(path)
  {
    forall i :: IsLast(path, shown, i, |shown|) ==>
      lookup(state, EntryPath(path, shown[i].name)) == Found(shown[i].stat)
  }

  /** Outside the root no two names are looked up at one path, so entries with distinct names are all
      the last ones at theirs. */
  lemma DistinctAreLast<A>(path: string, shown: seq<DirEntry<A>>)
    requires Canonical(path) && path != "/"
    requires forall i, j :: 0 <= i < j < |shown| ==> shown[i].name != shown[j].name
    ensures forall i :: 0 <= i < |shown| ==> IsLast(path, shown, i, |shown|)
  {
    forall i, j | 0 <= i < j < |shown| ensures EntryPath(path, shown[j].name) != EntryPath(path, shown[i].name) {
      EntryPathsApart(path, shown[i].name, shown[j].name);
    }
  }

  lemma EntryPathsApart(path: string, a: string, b: string)
    requires Canonical(path) && path != "/" && a != b
    ensures EntryPath(path, a) != EntryPath(path, b)
  {
    assert |ParentOf(path)| < |path|;
    if a != "." && a != ".." && b != "." && b != ".." {
      assert (path + "/" + a)[|path| + 1..] == a && (path + "/" + b)[|path| + 1..] == b;
    }
  }

  /** What is cached for `p` comes from one of the first `k` entries. */
  ghost predicate FromEntry<A>(m': map<string, Binding<A>>, p: string, path: string, shown: seq<DirEntry<A>>, k: nat)
    requires Absolute(path) && p in m'
  {
    exists i :: IsLast(path, shown, i, k) && EntryPath(path, shown[i].name) == p && m'[p].data == shown[i].stat
  }

  ghost predicate NoEntryAt<A>(p: string, path: string, shown: seq<DirEntry<A>>, k: nat)
    requires Absolute(path) && k <= |shown|
  {
    forall i :: 0 <= i < k ==> EntryPath(path, shown[i].name) != p
  }

  /** What is cached comes from the first `k` entries, or it was cached before and none of them is at its path. */
  ghost predicate AttrsFrom<A>(m': map<string, Binding<A>>, m: map<string, Binding<A>>, path: string,
        shown: seq<DirEntry<A>>, k: nat)
    requires Absolute(path) && k <= |shown|
  {
    forall p :: p in m' ==>
      FromEntry(m', p, path, shown, k) || (p in m && m'[p] == m[p] && NoEntryAt(p, path, shown, k))
  }

  /** The attributes of the first `k` entries are all there, stored since `start`. */
  ghost predicate AttrsThere<A>(m': map<string, Binding<A>>, path: string, shown: seq<DirEntry<A>>, k: nat, start: nat)
    requires Absolute(path) && k <= |shown|
  {
    forall i :: IsLast(path, shown, i, k) ==>
      var p := EntryPath(path, shown[i].name); p in m' && m'[p].data == shown[i].stat && start <= m'[p].stamp
  }

  lemma NoEntries<A>(m: map<string, Binding<A>>, path: string, shown: seq<DirEntry<A>>, start: nat)
    requires Absolute(path)
    ensures AttrsFrom(m, m, path, shown, 0) && AttrsThere(m, path, shown, 0, start)
  {
  }

  lemma AttrsOneMore<A>(m: map<string, Binding<A>>, m1: map<string, Binding<A>>, m2: map<string, Binding<A>>, ttl: nat,
        now: nat, path: string, shown: seq<DirEntry<A>>, k: nat)
    requires Absolute(path) && k < |shown| && AttrsFrom(m1, m, path, shown, k)
    requires Stored(m2, m1, ttl, now, EntryPath(path, shown[k].name), shown[k].stat)
    ensures AttrsFrom(m2, m, path, shown, k + 1)
  {
    hide EntryPath;
    var q := EntryPath(path, shown[k].name);
    assert IsLast(path, shown, k, k + 1);
    forall p | p in m2 && p != q
      ensures FromEntry(m2, p, path, shown, k + 1) || (p in m && m2[p] == m[p] && NoEntryAt(p, path, shown, k + 1))
    {
      assert p in m2 - {q};
      if FromEntry(m1, p, path, shown, k) {
        var i :| IsLast(path, shown, i, k) && EntryPath(path, shown[i].name) == p && m1[p].data == shown[i].stat;
        assert IsLast(path, shown, i, k + 1);
      }
    }
  }

  lemma ThereOneMore<A>(m1: map<string, Binding<A>>, m2: map<string, Binding<A>>, ttl: nat, now: nat, path: string,
        shown: seq<DirEntry<A>>, k: nat, start: nat)
    requires Absolute(path) && k < |shown| && AttrsThere(m1, path, shown, k, start) && start <= now <= start + ttl
    requires Stored(m2, m1, ttl, now, EntryPath(path, shown[k].name), shown[k].stat)
    ensures AttrsThere(m2, path, shown, k + 1, start)
  {
    forall i | IsLast(path, shown, i, k + 1) && i < k ensures IsLast(path, shown, i, k) {
    }
  }

  /** After a listing a coherent cache is coherent if the attributes shown are the remote's; and if
      nothing has expired in between, exactly then. */
  lemma ListingCoherentIff<S, A>(lookup: (S, string) -> Reply<A>, state: S, m: map<string, Binding<A>>,
        m': map<string, Binding<A>>, path: string, shown: seq<DirEntry<A>>, start: nat)
    requires Absolute(path) && CoherentIn(lookup, state, m) && AttrsFrom(m', m, path, shown, |shown|)
    ensures AttributesRight(lookup, state, path, shown) ==> CoherentIn(lookup, state, m')
    ensures AttrsThere(m', path, shown, |shown|, start) ==>
      (CoherentIn(lookup, state, m') <==> AttributesRight(lookup, state, path, shown))
  {
  }

  /** struct cached_readdir_callee_context: what stands between the remote's listing and the consumer. */
  class CalleeContext<S(!new), A(0, !new)> {
    const consumer: Consumer<A>
    const endp: CachedEndpoint<S, A>
    const path: Str
    const dir: Ptr
    var cacheeRc: int
    var failed: bool
    ghost const dirPath: string
    // What is in the listing by now.
    ghost var names: seq<string>

    ghost predicate Valid()
      reads this, path, path.c, endp, endp.attrs, endp.dirs, endp.links
      reads endp.attrs.cache, endp.dirs.cache, endp.links.cache, endp.Repr()
      reads endp.dirs.cache.table, endp.dirs.cache.list
    {
      && endp.Valid() && path.Valid() && path.Text() == dirPath && Canonical(dirPath)
      && dir in endp.Taken() && endp.Taken()[dir] == File(dirPath, Encode(names))
      && {this, consumer, path, path.c} !! endp.Repr()
    }

    /** The remote, and the directories other than this one. */
    ghost function Others(): (S, map<string, Binding<string>>, nat, map<Ptr, File<string>>)
      reads endp, endp.remote, endp.dirs, endp.dirs.cache, endp.dirs.cache.table, endp.dirs.cache.list
      reads endp.dirs.cache.list.clock
    {
      (endp.remote.state, endp.dirs.bindings, endp.dirs.Now(), endp.Taken() - {dir})
    }

    // Filling in callee_ctx.
    constructor (consumer: Consumer<A>, endp: CachedEndpoint<S, A>, path: Str, dir: Ptr, ghost dirPath: string,
          ghost names: seq<string>)
      requires endp.Valid() && path.Valid() && path.Text() == dirPath && Canonical(dirPath)
      requires dir in endp.Taken() && endp.Taken()[dir] == File(dirPath, Encode(names))
      requires {consumer, path, path.c} !! endp.Repr()
      ensures Valid() && cacheeRc == 0 && !failed && this.consumer == consumer && this.endp == endp && this.path == path
      ensures this.dir == dir && this.dirPath == dirPath && this.names == names
    {
      hide CachedEndpoint.Valid, CachedEndpoint.Repr, CachedEndpoint.Taken, CachedEndpoint.Coherent, Encode;
      hide Str.Valid, Str.Text;
      endp.ReprAllocated();
      this.consumer, this.endp, this.path, this.dir := consumer, endp, path, dir;
      cacheeRc, failed := 0, false;
      this.dirPath, this.names := dirPath, names;
    }

    /** Keeping the attributes of one entry under the entry's path. */
    method StoreEntry(entry: DirEntry<A>) returns (ok: bool)
      requires Valid() && NUL !in entry.name && EntryPath(dirPath, entry.name) in endp.attrs.paths
      modifies endp.Repr(), path, path.c
      ensures Valid() && ok && endp.Grown() && (path.c == old(path.c) || fresh(path.c))
      ensures Others() == old(Others()) && endp.attrs.Aged()
      ensures Stored(endp.attrs.bindings, old(endp.attrs.bindings), endp.attrs.Ttl(), endp.attrs.Now(),
                     EntryPath(dirPath, entry.name), entry.stat)
    {
      hide CachedEndpoint.Valid, CachedEndpoint.Repr, CachedEndpoint.Taken, EntryPath, Pushed, Encode, Stored;
      hide Str.Valid, Str.Text;
      endp.ReprAllocated();
      path.SizeOfText();
      var pathSize := path.size;
      var entryPath := NameEntry(path, entry.name, dirPath);
      ok := endp.StoreAttr(entryPath, entry.stat);
      endp.ReprAllocated();
      PopEntry(path, pathSize, dirPath, entry.name);
    }

    // The first half of cached_readdir_callee: the consumer, and the name.
    method PassOn(entry: DirEntry<A>)
      requires Valid() && NUL !in entry.name
      modifies this, consumer, endp.Repr()
      ensures Valid() && endp.Repr() == old(endp.Repr()) && failed == old(failed) && names == old(names) + [entry.name]
      ensures Others() == old(Others())
      ensures endp.attrs.bindings == old(endp.attrs.bindings) && endp.attrs.Still()
      ensures old(cacheeRc) != 0 ==> consumer.calls == old(consumer.calls) && cacheeRc == old(cacheeRc)
      ensures old(cacheeRc) == 0 ==>
        consumer.calls == old(consumer.calls) + [entry] && cacheeRc == consumer.answer(consumer.calls)
    {
      hide CachedEndpoint.Valid, CachedEndpoint.Repr, CachedEndpoint.Taken, Encode, Str.Valid, Str.Text;
      endp.ReprAllocated();
      if cacheeRc == 0 {
        cacheeRc := consumer.Call(entry);
      }
      EncodeOneMore(names, entry.name);
      endp.AddDirEntry(dir, entry.name);
      assert endp.Taken() - {dir} == old(endp.Taken()) - {dir};
      names := names + [entry.name];
    }

    /** cached_readdir_callee: the consumer is called as long as it has not had enough; the name and
        the attributes are kept in any case, and the remote is told to go on. */
    method Call(entry: DirEntry<A>) returns (rc: int)
      requires Valid() && !failed && NUL !in entry.name && EntryPath(dirPath, entry.name) in endp.attrs.paths
      modifies this, consumer, endp.Repr(), path, path.c
      ensures Valid() && !failed && rc == 0 && names == old(names) + [entry.name]
      ensures endp.Grown() && (path.c == old(path.c) || fresh(path.c))
      ensures Others() == old(Others()) && endp.attrs.Aged()
      ensures old(cacheeRc) != 0 ==> consumer.calls == old(consumer.calls) && cacheeRc == old(cacheeRc)
      ensures old(cacheeRc) == 0 ==>
        consumer.calls == old(consumer.calls) + [entry] && cacheeRc == consumer.answer(consumer.calls)
      ensures Stored(endp.attrs.bindings, old(endp.attrs.bindings), endp.attrs.Ttl(), endp.attrs.Now(),
                     EntryPath(dirPath, entry.name), entry.stat)
    {
      hide CachedEndpoint.Valid, CachedEndpoint.Repr, CachedEndpoint.Taken, Stored, EntryPath, Encode, Str.Valid;
      hide Str.Text;
      PassOn(entry);
      var ok := StoreEntry(entry);
      failed := !ok;
      rc := if ok then 0 else -1;
    }

    lemma PathAbsolute()
      requires Valid()
      ensures Absolute(dirPath)
    {
    }

    /** sftfs_sftp_readdir with the callee in between: the consumer is called as often as by the direct
        loop, and yet the whole listing is kept. */
    method ReadListing(listing: seq<DirEntry<A>>, end: int, plus: bool, zero: A) returns (rc: int)
      requires Valid() && !failed && cacheeRc == 0
      requires NulFree(Names(listing)) && EntriesKnown(dirPath, Names(listing), endp.attrs.paths)
      modifies this, consumer, endp.Repr(), path, path.c
      ensures Valid() && !failed && rc == end && names == old(names) + Names(listing)
      ensures endp.Grown() && (path.c == old(path.c) || fresh(path.c))
      ensures Others() == old(Others()) && endp.attrs.Aged()
      ensures consumer.calls == Calls(Shown(listing, plus, zero), consumer.answer, old(consumer.calls))
      ensures AttrsFrom(endp.attrs.bindings, old(endp.attrs.bindings), dirPath, Shown(listing, plus, zero), |listing|)
      ensures endp.attrs.Now() <= old(endp.attrs.Now()) + endp.attrs.Ttl() ==>
        AttrsThere(endp.attrs.bindings, dirPath, Shown(listing, plus, zero), |listing|, old(endp.attrs.Now()))
    {
      hide CalleeContext.Valid, CalleeContext.Others, CachedEndpoint.Repr, EntryPath, Names, Shown, NulFree;
      hide EntriesKnown;
      hide AttrsFrom, AttrsThere, Stored;
      ghost var shown := Shown(listing, plus, zero);
      ghost var calls := Calls(shown, consumer.answer, consumer.calls);
      ghost var m, start, ttl := endp.attrs.bindings, endp.attrs.Now(), endp.attrs.Ttl();
      PathAbsolute();
      NoEntries(m, dirPath, shown, start);
      var i, stop := 0, false;
      while i < |listing| && !stop
        invariant 0 <= i <= |listing| && !stop && Valid() && !failed && names == old(names) + Names(listing)[..i]
        invariant endp.Grown() && (path.c == old(path.c) || fresh(path.c))
        invariant Others() == old(Others()) && endp.attrs.Aged()
        invariant AttrsFrom(endp.attrs.bindings, m, dirPath, shown, i)
        invariant endp.attrs.Now() <= start + ttl ==> AttrsThere(endp.attrs.bindings, dirPath, shown, i, start)
        invariant cacheeRc == 0 ==> Calls(shown[i..], consumer.answer, consumer.calls) == calls
        invariant cacheeRc != 0 ==> consumer.calls == calls
      {
        CallsOnward(shown, i, consumer.answer, consumer.calls);
        ghost var m1 := endp.attrs.bindings;
        PathAbsolute();
        NameOnward(listing, i, dirPath, endp.attrs.paths);
        var shouldStop := Call(if plus then listing[i] else DirEntry(listing[i].name, zero));
        AttrsOneMore(m, m1, endp.attrs.bindings, ttl, endp.attrs.Now(), dirPath, shown, i);
        if endp.attrs.Now() <= start + ttl {
          ThereOneMore(m1, endp.attrs.bindings, ttl, endp.attrs.Now(), dirPath, shown, i, start);
        }
        stop := shouldStop != 0;
        i := i + 1;
      }
      assert Names(listing)[..i] == Names(listing);
      rc := if stop then 0 else end;
    }

    /** sftfs_cached_teardown_dir_caching: the listing is given to the cache, however it ended. */
    method TearDown(dirPath': string) returns (ghost t: nat)
      requires Valid() && dirPath' == dirPath
      modifies endp.Repr()
      ensures endp.Valid() && endp.Repr() == old(endp.Repr()) && endp.remote.state == old(endp.remote.state)
      ensures dir in old(endp.Taken()) && endp.Taken() == old(endp.Taken()) - {dir}
      ensures old(endp.dirs.Now()) <= t <= endp.dirs.Now()
      ensures endp.attrs.Still()
      ensures endp.attrs.bindings == old(endp.attrs.bindings)
      ensures var live := LiveMap(old(endp.dirs.bindings), endp.dirs.Ttl(), t);
        var b := Binding(Encode(old(names)), endp.dirs.Now());
        endp.dirs.bindings == if old(failed) then live else live[dirPath := b]
    {
      hide CachedEndpoint.Valid, CachedEndpoint.Repr, CachedEndpoint.Taken, Encode, Str.Valid, Str.Text;
      if failed {
        t := endp.DropDir(dirPath', dir);
      } else {
        t := endp.GiveDir(dirPath', dir);
      }
    }
  }

  /** A string that names were written into, none of them empty. */
  ghost predicate IsListing(text: string) {
    exists names :: NulFree(names) && "" !in names && Encode(names) == text
  }

  ghost predicate AllListings(m: map<string, Binding<string>>) {
    forall p :: p in m ==> IsListing(m[p].data)
  }

  /** The names of a listing; they are the only ones it can hold. */
  ghost function NamesIn(text: string): (names: seq<string>)
    requires IsListing(text)
    ensures NulFree(names) && "" !in names && Encode(names) == text
  {
    var names :| NulFree(names) && "" !in names && Encode(names) == text; names
  }

  lemma NamesInUnique(names: seq<string>)
    requires NulFree(names) && "" !in names
    ensures IsListing(Encode(names)) && NamesIn(Encode(names)) == names
  {
    EncodeInjective(NamesIn(Encode(names)), names);
  }

  lemma EmptyListing()
    ensures Encode([]) == "" && IsListing("") && NamesIn("") == []
  {
    NamesInUnique([]);
  }

  /** sftfs_cached_setup_dir_caching: the listing goes on where the cached one ends, if there is one. */
  method SetUp<S(!new), A(0, !new)>(endp: CachedEndpoint<S, A>, path: string, consumer: Consumer<A>)
      returns (ctx: CalleeContext<S, A>, ghost t: nat)
    requires endp.Valid() && path in endp.attrs.paths && Canonical(path) && endp.dirs.Closed(path)
    requires consumer !in endp.Repr() && AllListings(endp.dirs.bindings)
    modifies endp.Repr()
    ensures fresh(ctx) && fresh(ctx.path) && fresh(ctx.path.c) && endp.Grown()
    ensures ctx.Valid() && ctx.cacheeRc == 0 && !ctx.failed
    ensures ctx.consumer == consumer && ctx.endp == endp && ctx.dirPath == path
    ensures ctx.dir !in old(endp.Taken()) && endp.Taken() == old(endp.Taken())[ctx.dir := File(path, Encode(ctx.names))]
    ensures endp.attrs.Still()
    ensures endp.remote.state == old(endp.remote.state) && endp.attrs.bindings == old(endp.attrs.bindings)
    ensures old(endp.dirs.Now()) <= t <= endp.dirs.Now()
    ensures endp.dirs.bindings == LiveMap(old(endp.dirs.bindings), endp.dirs.Ttl(), endp.dirs.Now()) - {path}
    ensures NulFree(ctx.names) && "" !in ctx.names
    ensures var live := LiveMap(old(endp.dirs.bindings), endp.dirs.Ttl(), t);
      Encode(ctx.names) == if path in live then live[path].data else ""
  {
    hide CachedEndpoint.Valid, CachedEndpoint.Repr, CachedEndpoint.Taken, Encode, IsListing, LiveMap, Str.Valid;
    hide Str.Text;
    ghost var m := endp.dirs.bindings;
    endp.ReprAllocated();
    var buffer := new Str(Some(path), |path|);
    var dir, text;
    dir, text, t := endp.TakeDir(path);
    EmptyListing();
    if path in LiveMap(m, endp.dirs.Ttl(), t) {
      LiveDatum(m, path, endp.dirs.Ttl(), t);
    }
    ctx := new CalleeContext(consumer, endp, buffer, dir, path, NamesIn(text));
  }

  lemma TakenBack(taken0: map<Ptr, File<string>>, dir: Ptr, f: File<string>, taken: map<Ptr, File<string>>)
    requires dir !in taken0 && taken - {dir} == taken0[dir := f] - {dir}
    ensures taken - {dir} == taken0
  {
  }

  lemma ListingStored(m: map<string, Binding<string>>, ttl: nat, t: nat, t1: nat, t2: nat, path: string,
        names: seq<string>, more: seq<string>, now: nat)
    requires AllListings(m) && t <= t1 <= t2 && NulFree(names) && "" !in names && NulFree(more) && "" !in more
    requires Encode(names) == if path in LiveMap(m, ttl, t) then LiveMap(m, ttl, t)[path].data else ""
    ensures var after := LiveMap(LiveMap(m, ttl, t1) - {path}, ttl, t2)[path := Binding(Encode(names + more), now)];
      AllListings(after) && Within(after - {path}, m)
    ensures IsListing(Encode(names + more))
    ensures NamesIn(Encode(names + more)) == NamesBefore(m, ttl, t, path) + more
  {
    hide Encode, IsListing;
    NamesInUnique(names);
    NamesInUnique(names + more);
    EmptyListing();
  }

  /** The names of the listing cached for the path, if it has not expired at time `t`. */
  ghost function NamesBefore(m: map<string, Binding<string>>, ttl: nat, t: nat, path: string): seq<string> {
    if path in LiveMap(m, ttl, t) && IsListing(m[path].data) then NamesIn(m[path].data) else []
  }

  /** A listing that can be handed on and kept. */
  ghost predicate Listable<A>(path: string, listing: seq<DirEntry<A>>, paths: iset<string>)
    requires Absolute(path)
  {
    NulFree(Names(listing)) && "" !in Names(listing) && EntriesKnown(path, Names(listing), paths)
  }

  /** sftfs_cached_readdir where the remote is asked: the consumer sees what it would see without the
      cache, and what is stored is the listing, behind what was cached of it before, and the attributes
      shown. Unless something expired meanwhile, a coherent cache stays so exactly if those were right. */
  method ReaddirFetching<S(!new), A(0, !new)>(endp: CachedEndpoint<S, A>, path: string, listing: seq<DirEntry<A>>,
        end: int, plus: bool, zero: A, consumer: Consumer<A>) returns (rc: int, ghost t: nat)
    requires endp.Valid() && path in endp.attrs.paths && Canonical(path) && endp.dirs.Closed(path)
    requires consumer !in endp.Repr() && AllListings(endp.dirs.bindings)
    requires Listable(path, listing, endp.attrs.paths)
    modifies endp.Repr(), consumer
    ensures endp.Valid() && endp.Grown() && endp.Taken() == old(endp.Taken())
    ensures rc == end && endp.remote.state == old(endp.remote.state) && old(endp.dirs.Now()) <= t <= endp.dirs.Now()
    ensures consumer.calls == Calls(Shown(listing, plus, zero), consumer.answer, old(consumer.calls))
    ensures AllListings(endp.dirs.bindings) && Within(endp.dirs.bindings - {path}, old(endp.dirs.bindings))
    ensures path in endp.dirs.bindings && endp.dirs.bindings[path].stamp == endp.dirs.Now()
    ensures IsListing(endp.dirs.bindings[path].data)
    ensures NamesIn(endp.dirs.bindings[path].data) ==
      NamesBefore(old(endp.dirs.bindings), endp.dirs.Ttl(), t, path) + Names(listing)
    ensures endp.attrs.Aged()
    ensures AttrsFrom(endp.attrs.bindings, old(endp.attrs.bindings), path, Shown(listing, plus, zero), |listing|)
    ensures endp.attrs.Now() <= old(endp.attrs.Now()) + endp.attrs.Ttl() ==>
      AttrsThere(endp.attrs.bindings, path, Shown(listing, plus, zero), |listing|, old(endp.attrs.Now()))
    ensures var right := AttributesRight(endp.remote.lookup, endp.remote.state, path, Shown(listing, plus, zero));
      var inTime := endp.attrs.Now() <= old(endp.attrs.Now()) + endp.attrs.Ttl();
      old(endp.Coherent()) ==> (right ==> endp.Coherent()) && (inTime ==> (endp.Coherent() <==> right))
  {
    hide CachedEndpoint.Valid, CachedEndpoint.Repr, CachedEndpoint.Taken, CoherentIn, CalleeContext.Valid, Encode;
    hide IsListing;
    hide NamesBefore, LiveMap, AllListings, Within, AttrsFrom, AttrsThere, AttributesRight, Shown;
    ghost var m, taken, ttl := endp.dirs.bindings, endp.Taken(), endp.dirs.Ttl();
    ghost var a, start, lookup, state := endp.attrs.bindings, endp.attrs.Now(), endp.remote.lookup, endp.remote.state;
    var ctx;
    ctx, t := SetUp(endp, path, consumer);
    ghost var names, t1 := ctx.names, endp.dirs.Now();
    rc := ctx.ReadListing(listing, end, plus, zero);
    TakenBack(taken, ctx.dir, File(path, Encode(names)), endp.Taken());
    ghost var t2 := ctx.TearDown(path);
    ListingStored(m, ttl, t, t1, t2, path, names, Names(listing), endp.dirs.Now());
    if CoherentIn(lookup, state, a) {
      ListingCoherentIff(lookup, state, a, endp.attrs.bindings, path, Shown(listing, plus, zero), start);
    }
  }

  /** What a consumer has been called with when a listing was replayed from the cache, and whether that
      went through: with attributes it breaks off where one cannot be had. */
  ghost function Replay<A>(plus: bool, names: seq<string>, replies: seq<Reply<A>>, zero: A,
        answer: seq<DirEntry<A>> -> int, made: seq<DirEntry<A>>): (seq<DirEntry<A>>, bool)
    requires |replies| == |names|
  {
    if plus then PlusCalls(names, replies, answer, made) else (Calls(Bare(names, zero), answer, made), true)
  }

  /** sftfs_cached_fetch_dir_entries: false if nothing is cached for the path, or if the attributes of
      an entry were asked for and not to be had. */
  method FetchDirEntries<S(!new), A(0, !new)>(endp: CachedEndpoint<S, A>, path: string, plus: bool, zero: A,
        consumer: Consumer<A>) returns (fetched: bool, ghost t: nat, ghost replies: seq<Reply<A>>)
    requires endp.Valid() && path in endp.attrs.paths && Canonical(path)
    requires consumer !in endp.Repr() && AllListings(endp.dirs.bindings)
    requires path in endp.dirs.bindings ==> EntriesKnown(path, NamesIn(endp.dirs.bindings[path].data), endp.attrs.paths)
    modifies endp.Repr(), consumer
    ensures endp.Valid() && endp.Grown() && endp.remote.state == old(endp.remote.state)
    ensures t >= old(endp.dirs.Now()) && t == endp.dirs.Now() && endp.Taken() == old(endp.Taken())
    ensures endp.dirs.bindings == LiveMap(old(endp.dirs.bindings), endp.dirs.Ttl(), t)
    ensures endp.attrs.Aged()
    ensures Sourced(endp.remote.lookup, endp.remote.state, endp.attrs.bindings, old(endp.attrs.bindings))
    ensures Kept(endp.attrs.bindings, old(endp.attrs.bindings), endp.attrs.Ttl(), endp.attrs.Now())
    ensures path !in LiveMap(old(endp.dirs.bindings), endp.dirs.Ttl(), t) ==>
      !fetched && replies == [] && consumer.calls == old(consumer.calls)
    ensures path in LiveMap(old(endp.dirs.bindings), endp.dirs.Ttl(), t) ==>
      var names := NamesIn(old(endp.dirs.bindings)[path].data);
      && |replies| == |names|
      && (plus && names != [] && old(endp.attrs.bindings) != map[] ==> endp.attrs.Count() > old(endp.attrs.Count()))
      && (plus ==> AllAnswered(endp.remote.lookup, endp.remote.state, old(endp.attrs.bindings), endp.attrs.Ttl(),
                               old(endp.attrs.Next()), endp.attrs.Now(), path, names, replies))
      && (consumer.calls, fetched) == Replay(plus, names, replies, zero, consumer.answer, old(consumer.calls))
  {
    hide CachedEndpoint.Valid, CachedEndpoint.Repr, CachedEndpoint.Taken, Sourced, Kept, AllAnswered, Encode;
    hide LiveMap, IsListing;
    hide PlusCalls;
    ghost var m, a := endp.dirs.bindings, endp.attrs.bindings;
    var text := endp.PeekDir(path);
    t := endp.dirs.Now();
    NothingAsked(endp.remote.lookup, endp.remote.state, a, endp.attrs.Ttl(), 0, endp.attrs.Now(), path, []);
    if text == None {
      return false, t, [];
    }
    LiveDatum(m, path, endp.dirs.Ttl(), t);
    endp.ReprAllocated();
    if plus {
      fetched, replies := FetchWithAttr(endp, path, text.value, consumer, NamesIn(text.value));
    } else {
      FetchWithoutAttr(text.value, zero, consumer, NamesIn(text.value));
      fetched := true;
      replies := seq(|NamesIn(text.value)|, _ => Failed(0));
    }
  }

  lemma AllAnsweredLater<S, A>(lookup: (S, string) -> Reply<A>, state: S, m: map<string, Binding<A>>, ttl: nat,
        first: nat, t: nat, t': nat, path: string, names: seq<string>, replies: seq<Reply<A>>)
    requires Absolute(path) && |replies| <= |names| && t <= t'
    requires AllAnswered(lookup, state, m, ttl, first, t, path, names, replies)
    ensures AllAnswered(lookup, state, m, ttl, first, t', path, names, replies)
  {
  }

  // What was cached for the path at a later time, if some of it has expired before.
  lemma NamesBeforeLater(m: map<string, Binding<string>>, ttl: nat, t: nat, u: nat, path: string)
    requires t <= u
    ensures NamesBefore(LiveMap(m, ttl, t), ttl, u, path) == NamesBefore(m, ttl, u, path)
    ensures path !in LiveMap(m, ttl, t) ==> NamesBefore(m, ttl, u, path) == []
  {
  }

  /** What is cached comes from one of the entries shown or, where none is, was cached before or is what
      the remote says. */
  ghost predicate ListedOver<S, A>(lookup: (S, string) -> Reply<A>, state: S, m': map<string, Binding<A>>,
        m: map<string, Binding<A>>, path: string, shown: seq<DirEntry<A>>)
    requires Absolute(path)
  {
    forall p :: p in m' ==>
      || FromEntry(m', p, path, shown, |shown|)
      || (NoEntryAt(p, path, shown, |shown|)
          && ((p in m && m'[p] == m[p]) || lookup(state, p) == Found(m'[p].data)))
  }

  /** What a listing that was asked for leaves of the attributes cached before: what was shown, and if
      nothing has expired since `start`, all of it and coherence exactly as that was right. */
  ghost predicate AttrsListed<S, A>(lookup: (S, string) -> Reply<A>, state: S, m': map<string, Binding<A>>,
        m: map<string, Binding<A>>, start: nat, now: nat, ttl: nat, path: string, shown: seq<DirEntry<A>>)
    requires Absolute(path)
  {
    && ListedOver(lookup, state, m', m, path, shown)
    && (now <= start + ttl ==> AttrsThere(m', path, shown, |shown|, start))
    && (CoherentIn(lookup, state, m) ==>
          && (AttributesRight(lookup, state, path, shown) ==> CoherentIn(lookup, state, m'))
          && (now <= start + ttl ==>
                (CoherentIn(lookup, state, m') <==> AttributesRight(lookup, state, path, shown))))
  }

  // Asking the remote after all, what was cached being `m` and `a` at the start.
  method AskRemote<S(!new), A(0, !new)>(endp: CachedEndpoint<S, A>, path: string, listing: seq<DirEntry<A>>, end: int,
        plus: bool, zero: A, consumer: Consumer<A>, ghost m: map<string, Binding<string>>,
        ghost a: map<string, Binding<A>>, ghost start: nat, ghost t: nat) returns (rc: int, ghost u: nat)
    requires endp.Valid() && path in endp.attrs.paths && Canonical(path) && endp.dirs.Closed(path)
    requires consumer !in endp.Repr() && AllListings(endp.dirs.bindings) && Listable(path, listing, endp.attrs.paths)
    requires Within(endp.dirs.bindings, m) && t <= endp.dirs.Now() && start <= endp.attrs.Now()
    requires endp.dirs.bindings == m || endp.dirs.bindings == LiveMap(m, endp.dirs.Ttl(), t)
    requires Sourced(endp.remote.lookup, endp.remote.state, endp.attrs.bindings, a)
    modifies endp.Repr(), consumer
    ensures endp.Valid() && endp.Grown() && endp.Taken() == old(endp.Taken()) && endp.attrs.Aged()
    ensures endp.remote.state == old(endp.remote.state) && t <= u <= endp.dirs.Now() && rc == end
    ensures consumer.calls == Calls(Shown(listing, plus, zero), consumer.answer, old(consumer.calls))
    ensures AllListings(endp.dirs.bindings) && Within(endp.dirs.bindings - {path}, m)
    ensures path in endp.dirs.bindings && endp.dirs.bindings[path].stamp == endp.dirs.Now()
    ensures IsListing(endp.dirs.bindings[path].data)
    ensures NamesIn(endp.dirs.bindings[path].data) == NamesBefore(m, endp.dirs.Ttl(), u, path) + Names(listing)
    ensures AttrsListed(endp.remote.lookup, endp.remote.state, endp.attrs.bindings, a, start, endp.attrs.Now(),
              endp.attrs.Ttl(), path, Shown(listing, plus, zero))
  {
    hide CachedEndpoint.Valid, CachedEndpoint.Repr, CachedEndpoint.Taken, FileCache.Closed, LiveMap, IsListing;
    hide AllListings, Sourced, CoherentIn, AttributesRight, AttrsThere, AttrsFrom, ListedOver, NamesBefore, Within;
    hide Shown, Listable, Calls;
    ghost var lookup, state, m1, a1, t1 := endp.remote.lookup, endp.remote.state, endp.dirs.bindings,
      endp.attrs.bindings, endp.attrs.Now();
    if CoherentIn(lookup, state, a) {
      SourcedCoherent(lookup, state, a, a1);
    }
    rc, u := ReaddirFetching(endp, path, listing, end, plus, zero, consumer);
    NamesBeforeLater(m, endp.dirs.Ttl(), t, u, path);
    ListedOverSourced(lookup, state, a, a1, endp.attrs.bindings, path, Shown(listing, plus, zero));
    if endp.attrs.Now() <= start + endp.attrs.Ttl() {
      ThereSince(endp.attrs.bindings, path, Shown(listing, plus, zero), |listing|, start, t1);
    }
    WithinButOne(m, m1, endp.dirs.bindings, path);
  }

  /** sftfs_cached_readdir: `isCached` is what sftfs_cached_opendir found, `openRc` what opening the
      directory after all would say. `made` are the calls made and `replayed` whether that was all when
      a cached listing was replayed, `asked` whether the remote was asked for its own. If it was not
      replayed, and be it for one attribute that could not be had
      in the middle, the consumer is handed the remote's listing from the start. */
  method Readdir<S(!new), A(0, !new)>(endp: CachedEndpoint<S, A>, path: string, isCached: bool, openRc: int,
        listing: seq<DirEntry<A>>, end: int, plus: bool, zero: A, consumer: Consumer<A>)
      returns (rc: int, ghost t: nat, ghost u: nat, ghost replies: seq<Reply<A>>, ghost made: seq<DirEntry<A>>,
        ghost replayed: bool, ghost asked: bool)
    requires endp.Valid() && path in endp.attrs.paths && Canonical(path) && endp.dirs.Closed(path)
    requires consumer !in endp.Repr() && AllListings(endp.dirs.bindings)
    requires path in endp.dirs.bindings ==> EntriesKnown(path, NamesIn(endp.dirs.bindings[path].data), endp.attrs.paths)
    requires Listable(path, listing, endp.attrs.paths)
    modifies endp.Repr(), consumer
    ensures endp.Valid() && endp.Grown() && endp.Taken() == old(endp.Taken())
    ensures endp.remote.state == old(endp.remote.state) && endp.attrs.Aged()
    ensures old(endp.dirs.Now()) <= t <= u <= endp.dirs.Now() && (replayed ==> t == endp.dirs.Now())
    ensures asked <==> !replayed && (isCached ==> openRc == 0)
    ensures !(isCached && path in LiveMap(old(endp.dirs.bindings), endp.dirs.Ttl(), t)) ==>
      (made, replayed) == (old(consumer.calls), false)
    ensures isCached && path in LiveMap(old(endp.dirs.bindings), endp.dirs.Ttl(), t) ==>
      var names := NamesIn(old(endp.dirs.bindings)[path].data);
      && |replies| == |names|
      && (plus ==> AllAnswered(endp.remote.lookup, endp.remote.state, old(endp.attrs.bindings), endp.attrs.Ttl(),
                               old(endp.attrs.Next()), endp.attrs.Now(), path, names, replies))
      && (made, replayed) == Replay(plus, names, replies, zero, consumer.answer, old(consumer.calls))
    ensures if replayed then rc == 0 && consumer.calls == made
      else if isCached && openRc != 0 then rc == openRc && consumer.calls == made
      else rc == end && consumer.calls == Calls(Shown(listing, plus, zero), consumer.answer, made)
    ensures AllListings(endp.dirs.bindings) && Within(endp.dirs.bindings - {path}, old(endp.dirs.bindings))
    ensures !asked ==> Within(endp.dirs.bindings, old(endp.dirs.bindings))
    ensures asked ==>
      && path in endp.dirs.bindings && endp.dirs.bindings[path].stamp == endp.dirs.Now()
      && IsListing(endp.dirs.bindings[path].data)
      && NamesIn(endp.dirs.bindings[path].data) ==
           NamesBefore(old(endp.dirs.bindings), endp.dirs.Ttl(), u, path) + Names(listing)
    ensures !asked ==>
      && Sourced(endp.remote.lookup, endp.remote.state, endp.attrs.bindings, old(endp.attrs.bindings))
      && Kept(endp.attrs.bindings, old(endp.attrs.bindings), endp.attrs.Ttl(), endp.attrs.Now())
      && (old(endp.Coherent()) ==> endp.Coherent())
    ensures asked ==>
      AttrsListed(endp.remote.lookup, endp.remote.state, endp.attrs.bindings, old(endp.attrs.bindings),
        old(endp.attrs.Now()), endp.attrs.Now(), endp.attrs.Ttl(), path, Shown(listing, plus, zero))
  {
    hide CachedEndpoint.Valid, CachedEndpoint.Repr, State.Open, EntryPath, Encode, LiveMap, IsListing, AllListings;
    hide Sourced, CoherentIn, AllAnswered, AttributesRight, AttrsThere, NamesBefore, Within, Shown, Replay;
    hide Kept, AttrsFrom, AttrsListed;
    ghost var m, a, ttl := endp.dirs.bindings, endp.attrs.bindings, endp.dirs.Ttl();
    ghost var lookup, state, first := endp.remote.lookup, endp.remote.state, endp.attrs.Next();
    t, u := endp.dirs.Now(), endp.dirs.Now();
    made, replayed, replies, asked := consumer.calls, false, [], false;
    LiveWithin(m, ttl, t, {path});
    StillListings(m, ttl, t, path);
    NothingAsked(lookup, state, a, endp.attrs.Ttl(), 0, endp.attrs.Now(), path, []);
    if isCached {
      var fetched;
      fetched, t, replies := FetchDirEntries(endp, path, plus, zero, consumer);
      made, replayed, u := consumer.calls, fetched, t;
      LiveWithin(m, ttl, t, {path});
      StillListings(m, ttl, t, path);
      if CoherentIn(lookup, state, a) {
        SourcedCoherent(lookup, state, a, endp.attrs.bindings);
      }
      if fetched {
        return 0, t, u, replies, made, replayed, false;
      }
      if openRc != 0 {
        return openRc, t, u, replies, made, replayed, false;
      }
    }
    ghost var t1 := endp.attrs.Now();
    asked := true;
    rc, u := AskRemote(endp, path, listing, end, plus, zero, consumer, m, a, old(endp.attrs.Now()), t);
    if plus && isCached && path in LiveMap(m, ttl, t) {
      AllAnsweredLater(lookup, state, a, endp.attrs.Ttl(), first, t1, endp.attrs.Now(), path, NamesIn(m[path].data),
        replies);
    }
  }

  lemma ListedOverSourced<S, A>(lookup: (S, string) -> Reply<A>, state: S, m: map<string, Binding<A>>,
        m1: map<string, Binding<A>>, m': map<string, Binding<A>>, path: string, shown: seq<DirEntry<A>>)
    requires Absolute(path) && Sourced(lookup, state, m1, m) && AttrsFrom(m', m1, path, shown, |shown|)
    ensures ListedOver(lookup, state, m', m, path, shown)
  {
  }

  lemma ThereSince<A>(m: map<string, Binding<A>>, path: string, shown: seq<DirEntry<A>>, k: nat, start: nat, t: nat)
    requires Absolute(path) && k <= |shown| && AttrsThere(m, path, shown, k, t) && start <= t
    ensures AttrsThere(m, path, shown, k, start)
  {
  }

  lemma StillListings(m: map<string, Binding<string>>, ttl: nat, t: nat, path: string)
    requires AllListings(m)
    ensures AllListings(LiveMap(m, ttl, t)) && Within(m, m) && Within(m - {path}, m)
    ensures Within(LiveMap(m, ttl, t) - {path}, m)
  {
  }

  lemma WithinButOne<A>(m: map<string, Binding<A>>, m1: map<string, Binding<A>>, m2: map<string, Binding<A>>,
        path: string)
    requires Within(m1, m) && Within(m2 - {path}, m1)
    ensures Within(m2 - {path}, m)
  {
  }

  /** A consumer is handed the first entries twice exactly when the lookup of an entry behind the first
      one fails while the consumer asks for more. */
  lemma HandedTwiceIff<A>(names: seq<string>, replies: seq<Reply<A>>, zero: A, answer: seq<DirEntry<A>> -> int,
        made: seq<DirEntry<A>>)
    requires |names| == |replies|
    ensures var (made', replayed) := Replay(true, names, replies, zero, answer, made);
      !replayed && made' != made <==> exists k :: k > 0 && FailsAt(names, replies, answer, made, k)
  {
    BreaksOffIff(names, replies, answer, made);
    var made' := PlusCalls(names, replies, answer, made).0;
    forall k | FailsAt(names, replies, answer, made, k) ensures made' != made <==> k > 0 {
      assert |made'| == |made| + k;
      assert k == 0 ==> made' == made;
    }
  }

  /** A listing that was read once is replayed by a later read without attributes, if that comes before
      it expires: the consumer is called as by the direct loop. */
  method ReadAndReplay<S(!new), A(0, !new)>(endp: CachedEndpoint<S, A>, path: string, listing: seq<DirEntry<A>>,
        end: int, plus: bool, zero: A, first: Consumer<A>, second: Consumer<A>)
      returns (fetched: bool, ghost stored: nat)
    requires endp.Valid() && path in endp.attrs.paths && Canonical(path) && endp.dirs.Closed(path)
    requires first != second && first !in endp.Repr() && second !in endp.Repr() && AllListings(endp.dirs.bindings)
    requires path !in endp.dirs.bindings && Listable(path, listing, endp.attrs.paths)
    modifies endp.Repr(), first, second
    ensures endp.Valid() && stored >= old(endp.dirs.Now())
    ensures endp.dirs.Now() <= stored + endp.dirs.Ttl() ==>
      fetched && second.calls == Calls(Shown(listing, false, zero), second.answer, old(second.calls))
  {
    hide CachedEndpoint.Valid, CachedEndpoint.Repr, CachedEndpoint.Taken, EntryPath, Encode, IsListing, AllListings;
    hide CoherentIn, AttributesRight, AttrsThere, Sourced, AllAnswered, Within, PlusCalls, EntriesKnown, NulFree;
    ghost var m := endp.dirs.bindings;
    var rc;
    ghost var t, replies;
    rc, t := ReaddirFetching(endp, path, listing, end, plus, zero, first);
    stored := endp.dirs.Now();
    ghost var kept := endp.dirs.bindings;
    assert NamesBefore(m, endp.dirs.Ttl(), t, path) == [];
    assert NamesIn(kept[path].data) == Names(listing);
    fetched, t, replies := FetchDirEntries(endp, path, false, zero, second);
    BareNames(listing, zero);
  }

  /** A directory that is read from the remote while its listing is cached: the new names go behind the
      old ones, and a later read is handed both, before they expire. */
  method ReadTwice<S(!new), A(0, !new)>(endp: CachedEndpoint<S, A>, path: string, listing: seq<DirEntry<A>>,
        listing': seq<DirEntry<A>>, zero: A, first: Consumer<A>, second: Consumer<A>, third: Consumer<A>)
      returns (fetched: bool)
    requires endp.Valid() && path in endp.attrs.paths && Canonical(path) && endp.Taken() == map[]
    requires first != third && second != third && {first, second, third} !! endp.Repr()
    requires endp.dirs.bindings == map[]
    requires Listable(path, listing, endp.attrs.paths) && Listable(path, listing', endp.attrs.paths)
    modifies endp.Repr(), first, second, third
    ensures endp.Valid()
    ensures endp.dirs.Now() <= old(endp.dirs.Now()) + endp.dirs.Ttl() ==>
      fetched && third.calls == Calls(Shown(listing + listing', false, zero), third.answer, old(third.calls))
  {
    hide CachedEndpoint.Valid, CachedEndpoint.Repr, Listable, Calls, Shown, Encode, IsListing, NamesBefore, State.Open;
    hide AttrsFrom, AttrsThere, AttributesRight, CoherentIn, AllListings, EntriesKnown, NulFree, Within, LiveMap;
    var rc;
    ghost var t, replies, dirTtl := 0, [], endp.dirs.Ttl();
    NothingListed(endp.dirs.bindings, dirTtl, path);
    rc, t := ReaddirFetching(endp, path, listing, 0, false, zero, first);
    ghost var m := endp.dirs.bindings;
    rc, t := ReaddirFetching(endp, path, listing', 0, false, zero, second);
    ghost var m' := endp.dirs.bindings;
    ListedBehind(m, dirTtl, t, path);
    JoinedKnown(path, listing, listing', zero, endp.attrs.paths, NamesIn(m'[path].data));
    fetched, t, replies := FetchDirEntries(endp, path, false, zero, third);
    LiveIff(m', dirTtl, t, path);
  }

  lemma ListedBehind(m: map<string, Binding<string>>, ttl: nat, t: nat, path: string)
    requires path in m && IsListing(m[path].data)
    ensures t <= m[path].stamp + ttl ==> NamesBefore(m, ttl, t, path) == NamesIn(m[path].data)
    ensures NamesBefore(m, ttl, t, path) == NamesIn(m[path].data) || NamesBefore(m, ttl, t, path) == []
  {
  }

  lemma JoinedKnown<A>(path: string, listing: seq<DirEntry<A>>, listing': seq<DirEntry<A>>, zero: A,
        paths: iset<string>, names: seq<string>)
    requires Absolute(path) && Listable(path, listing, paths) && Listable(path, listing', paths)
    requires names == Names(listing) + Names(listing') || names == Names(listing')
    ensures EntriesKnown(path, names, paths)
    ensures Shown(listing + listing', false, zero) == Bare(Names(listing) + Names(listing'), zero)
  {
  }

  /** Everything cached of directories is what `list` says. */
  ghost predicate DirsTrue<A>(m: map<string, Binding<string>>, list: string -> seq<DirEntry<A>>) {
    forall p :: p in m ==> IsListing(m[p].data) && NamesIn(m[p].data) == Names(list(p))
  }

  /** sftfs_cached_opendir: whether it finds the directory cached. */
  method DirExists<S(!new), A(0, !new)>(endp: CachedEndpoint<S, A>, path: string) returns (isCached: bool)
    requires endp.Valid() && path in endp.attrs.paths
    modifies endp.Repr()
    ensures endp.Valid() && endp.Repr() == old(endp.Repr()) && endp.Taken() == old(endp.Taken())
    ensures endp.remote.state == old(endp.remote.state) && endp.attrs.bindings == old(endp.attrs.bindings)
    ensures endp.attrs.Still() && endp.dirs.Now() >= old(endp.dirs.Now())
    ensures endp.dirs.bindings == LiveMap(old(endp.dirs.bindings), endp.dirs.Ttl(), endp.dirs.Now())
    ensures isCached <==> path in endp.dirs.bindings
  {
    hide CachedEndpoint.Valid, CachedEndpoint.Repr, CachedEndpoint.Taken, LiveMap;
    var text := endp.PeekDir(path);
    isCached := text.Some?;
  }

  /** A directory that was opened while its listing was cached: until that expires its names are handed on,
      whatever the remote lists by now, and after that what the remote lists. */
  method ReadAgain<S(!new), A(0, !new)>(endp: CachedEndpoint<S, A>, path: string, ghost names: seq<string>,
        listing: seq<DirEntry<A>>, zero: A, consumer: Consumer<A>)
    requires endp.Valid() && path in endp.attrs.paths && Canonical(path) && endp.Taken() == map[]
    requires consumer !in endp.Repr() && AllListings(endp.dirs.bindings) && Listable(path, listing, endp.attrs.paths)
    requires path in endp.dirs.bindings && NamesIn(endp.dirs.bindings[path].data) == names
    requires EntriesKnown(path, names, endp.attrs.paths)
    modifies endp.Repr(), consumer
    ensures endp.Valid() && endp.Grown() && endp.remote.state == old(endp.remote.state)
    ensures endp.dirs.Now() >= old(endp.dirs.Now())
    ensures var replayed := endp.dirs.Now() <= old(endp.dirs.bindings)[path].stamp + endp.dirs.Ttl();
      consumer.calls ==
        Calls(if replayed then Bare(names, zero) else Shown(listing, false, zero), consumer.answer, old(consumer.calls))
  {
    hide CachedEndpoint.Valid, CachedEndpoint.Repr, EntryPath, Encode, IsListing, AllListings, State.Open, CoherentIn;
    hide AttributesRight, AttrsThere, Sourced, AllAnswered, Within, PlusCalls, EntriesKnown, NulFree, Calls, Shown;
    var rc;
    ghost var t, u, replies, made, replayed, asked;
    rc, t, u, replies, made, replayed, asked := Readdir(endp, path, true, 0, listing, 0, false, zero, consumer);
  }

  /** A directory that was listed and is then removed is not found cached any more; one that could not be
      removed is until its listing expires. */
  method ListAndRemove<S(!new), A(0, !new)>(endp: CachedEndpoint<S, A>, path: string, listing: seq<DirEntry<A>>,
        end: int, plus: bool, zero: A, consumer: Consumer<A>) returns (rc: int, isCached: bool, ghost stored: nat)
    requires endp.Valid() && path in endp.attrs.paths && Canonical(path) && endp.Taken() == map[]
    requires consumer !in endp.Repr() && AllListings(endp.dirs.bindings) && Listable(path, listing, endp.attrs.paths)
    modifies endp.Repr(), consumer
    ensures endp.Valid() && stored <= endp.dirs.Now()
    ensures (endp.remote.state, rc) == endp.remote.apply(old(endp.remote.state), Rmdir(path))
    ensures isCached <==> rc != 0 && endp.dirs.Now() <= stored + endp.dirs.Ttl()
  {
    hide CachedEndpoint.Valid, CachedEndpoint.Repr, Listable, Calls, Shown, Encode, IsListing, NamesBefore, State.Open;
    hide AttrsFrom, AttrsThere, AttributesRight, CoherentIn, AllListings, Purged, PurgedBoth, Witnessed, OwnPathOnly;
    hide SameAt, SlashBlind, OwnObjectOnly, OwnAndParentOnly, RootHarmless, ParentHarmless, Within;
    ghost var t;
    rc, t := ReaddirFetching(endp, path, listing, end, plus, zero, consumer);
    stored := endp.dirs.Now();
    rc := endp.Change(Rmdir(path), []);
    isCached := DirExists(endp, path);
  }

  // One read of a directory that is not cached, and another one while the handle of the first is open.
  method ReadThenAgain<S(!new), A(0, !new)>(endp: CachedEndpoint<S, A>, path: string, listing: seq<DirEntry<A>>,
        listing': seq<DirEntry<A>>, zero: A, first: Consumer<A>, second: Consumer<A>) returns (ghost stored: nat)
    requires endp.Valid() && path in endp.attrs.paths && Canonical(path) && endp.Taken() == map[]
    requires first != second && {first, second} !! endp.Repr() && endp.dirs.bindings == map[]
    requires Listable(path, listing, endp.attrs.paths) && Listable(path, listing', endp.attrs.paths)
    modifies endp.Repr(), first, second
    ensures endp.Valid() && stored <= endp.dirs.Now()
    ensures var replayed := endp.dirs.Now() <= stored + endp.dirs.Ttl();
      second.calls ==
        Calls(Shown(if replayed then listing else listing', false, zero), second.answer, old(second.calls))
  {
    hide CachedEndpoint.Valid, CachedEndpoint.Repr, Listable, Calls, Shown, Encode, IsListing, NamesBefore, State.Open;
    hide AttrsFrom, AttrsThere, AttributesRight, CoherentIn, AllListings;
    var rc;
    ghost var t;
    NothingListed(endp.dirs.bindings, endp.dirs.Ttl(), path);
    ListableNames(path, listing, endp.attrs.paths);
    rc, t := ReaddirFetching(endp, path, listing, 0, false, zero, first);
    stored := endp.dirs.Now();
    BareNames(listing, zero);
    ReadAgain(endp, path, Names(listing), listing', zero, second);
  }

  /** From the start: a listing that was read is replayed up to the time to live of directories after it
      was stored, and not after that. */
  method ReplayedUntilExpired<S(!new), A(0, !new)>(remote: Remote<S, A>, ofAttrs: Config, ofDirs: Config,
        ofLinks: Config, horizon: nat, hashOf: string -> nat, ghost paths: iset<string>, path: string,
        listing: seq<DirEntry<A>>, listing': seq<DirEntry<A>>, zero: A, first: Consumer<A>, second: Consumer<A>)
      returns (endp: CachedEndpoint<S, A>, ghost stored: nat)
    requires NoPrefixCollision(paths, hashOf)
    requires ofAttrs.Fits(horizon) && ofDirs.Fits(horizon) && ofLinks.Fits(horizon)
    requires path in paths && Canonical(path) && Listable(path, listing, paths) && Listable(path, listing', paths)
    requires first != second
    modifies remote, first, second
    ensures endp.Valid() && fresh(endp) && stored <= endp.dirs.Now()
    ensures endp.dirs.cache.list.clock.reading == ofDirs.reading
    ensures var replayed := endp.dirs.Now() <= stored + ofDirs.ttl;
      second.calls ==
        Calls(Shown(if replayed then listing else listing', false, zero), second.answer, old(second.calls))
  {
    hide CachedEndpoint.Valid, CachedEndpoint.Taken, Listable, NoPrefixCollision, Config.Fits, Calls, Shown;
    endp := new CachedEndpoint(remote, ofAttrs, ofDirs, ofLinks, horizon, hashOf, paths);
    stored := ReadThenAgain(endp, path, listing, listing', zero, first, second);
  }

  lemma NothingListed(m: map<string, Binding<string>>, ttl: nat, path: string)
    requires m == map[]
    ensures AllListings(m) && forall t :: NamesBefore(m, ttl, t, path) == []
  {
  }

  lemma ListableNames<A>(path: string, listing: seq<DirEntry<A>>, paths: iset<string>)
    requires Absolute(path) && Listable(path, listing, paths)
    ensures EntriesKnown(path, Names(listing), paths)
  {
  }

  /** One directory is opened and read without attributes. */
  method OpenAndRead<S(!new), A(0, !new)>(endp: CachedEndpoint<S, A>, ghost list: string -> seq<DirEntry<A>>,
        path: string, listing: seq<DirEntry<A>>, zero: A, consumer: Consumer<A>)
    requires endp.Valid() && endp.Taken() == map[] && DirsTrue(endp.dirs.bindings, list) && listing == list(path)
    requires consumer !in endp.Repr() && path in endp.attrs.paths && Canonical(path)
    requires Listable(path, listing, endp.attrs.paths)
    modifies endp.Repr(), consumer
    ensures endp.Valid() && endp.Taken() == map[] && DirsTrue(endp.dirs.bindings, list)
    ensures endp.Grown()
    ensures consumer.calls == Calls(Shown(listing, false, zero), consumer.answer, old(consumer.calls))
  {
    hide CachedEndpoint.Valid, CachedEndpoint.Repr, EntryPath, Encode, IsListing, State.Open, LiveMap;
    hide CoherentIn, AttributesRight, AttrsThere, Sourced, AllAnswered, Within, PlusCalls, NulFree, NamesBefore;
    hide DirsTrue;
    ghost var m0, ttl := endp.dirs.bindings, endp.dirs.Ttl();
    var isCached := DirExists(endp, path);
    ghost var m := endp.dirs.bindings;
    LiveWithin(m0, ttl, endp.dirs.Now(), {});
    TrueWithin(m0, m, list, path);
    var rc;
    ghost var t, u, replies, made, replayed, asked;
    rc, t, u, replies, made, replayed, asked := Readdir(endp, path, isCached, 0, listing, 0, false, zero, consumer);
    TrueAfter(m, endp.dirs.bindings, ttl, t, u, list, path, asked, isCached);
    BareNames(listing, zero);
  }

  lemma TrueWithin<A>(m: map<string, Binding<string>>, m': map<string, Binding<string>>,
        list: string -> seq<DirEntry<A>>, path: string)
    requires DirsTrue(m, list) && Within(m', m)
    ensures DirsTrue(m', list) && AllListings(m')
    ensures path in m' ==> NamesIn(m'[path].data) == Names(list(path))
  {
  }

  lemma TrueAfter<A>(m: map<string, Binding<string>>, m': map<string, Binding<string>>, ttl: nat, t: nat, u: nat,
        list: string -> seq<DirEntry<A>>, path: string, asked: bool, isCached: bool)
    requires DirsTrue(m, list) && t <= u && Within(m' - {path}, m) && (!asked ==> Within(m', m))
    requires isCached <==> path in m
    requires asked ==> !(isCached && path in LiveMap(m, ttl, t))
    requires asked ==> path in m' && IsListing(m'[path].data)
    requires asked ==> NamesIn(m'[path].data) == NamesBefore(m, ttl, u, path) + Names(list(path))
    ensures DirsTrue(m', list)
  {
    if asked {
      NamesBeforeLater(m, ttl, t, u, path);
      forall p | p in m' && p != path ensures p in m && m'[p] == m[p] {
        assert p in m' - {path};
      }
    }
  }

  /** In every run of reads without attributes of directories that nobody changes, whatever expires in
      between, each consumer is called as by the direct loop over the remote's listing. */
  method RunReads<S(!new), A(0, !new)>(endp: CachedEndpoint<S, A>, list: string -> seq<DirEntry<A>>, paths: seq<string>,
        answers: seq<seq<DirEntry<A>> -> int>, zero: A) returns (calls: seq<seq<DirEntry<A>>>)
    requires endp.Valid() && endp.Taken() == map[] && DirsTrue(endp.dirs.bindings, list) && |answers| == |paths|
    requires forall i :: 0 <= i < |paths| ==>
      paths[i] in endp.attrs.paths && Canonical(paths[i]) && Listable(paths[i], list(paths[i]), endp.attrs.paths)
    modifies endp.Repr()
    ensures endp.Valid() && |calls| == |paths|
    ensures forall i :: 0 <= i < |paths| ==> calls[i] == Calls(Shown(list(paths[i]), false, zero), answers[i], [])
  {
    hide CachedEndpoint.Valid, CachedEndpoint.Repr, CachedEndpoint.Taken, Listable, DirsTrue, Calls, Shown;
    calls := [];
    var i := 0;
    while i < |paths|
      invariant 0 <= i <= |paths| && |calls| == i && endp.Valid() && endp.Taken() == map[]
      invariant DirsTrue(endp.dirs.bindings, list) && endp.Grown()
      invariant forall k :: 0 <= k < i ==> calls[k] == Calls(Shown(list(paths[k]), false, zero), answers[k], [])
    {
      endp.ReprAllocated();
      var consumer := new Consumer(answers[i]);
      OpenAndRead(endp, list, paths[i], list(paths[i]), zero, consumer);
      calls := calls + [consumer.calls];
      i := i + 1;
    }
  }

  /** After a listing getattr answers, until that expires, with what the last entry at the path was
      shown with; with zeros if attributes were not asked for. */
  method StatAfterListing<S(!new), A(0, !new)>(endp: CachedEndpoint<S, A>, path: string, listing: seq<DirEntry<A>>,
        end: int, plus: bool, zero: A, consumer: Consumer<A>, i: nat) returns (r: Reply<A>, ghost j: nat)
    requires endp.Valid() && path in endp.attrs.paths && Canonical(path) && endp.dirs.Closed(path)
    requires consumer !in endp.Repr() && AllListings(endp.dirs.bindings)
    requires Listable(path, listing, endp.attrs.paths) && i < |listing|
    modifies endp.Repr(), consumer
    ensures endp.Valid() && endp.remote.state == old(endp.remote.state)
    ensures j < |listing| && EntryPath(path, listing[j].name) == EntryPath(path, listing[i].name)
    ensures IsLast(path, Shown(listing, plus, zero), j, |listing|)
    ensures forall k :: j < k < |listing| ==> EntryPath(path, listing[k].name) != EntryPath(path, listing[i].name)
    ensures endp.attrs.Now() <= old(endp.attrs.Now()) + endp.attrs.Ttl() ==>
      r == Found(if plus then listing[j].stat else zero)
    ensures r.Found? ==>
      var p := EntryPath(path, listing[i].name); p in endp.attrs.bindings && endp.attrs.bindings[p].data == r.attr
  {
    hide CachedEndpoint.Valid, CachedEndpoint.Repr, CachedEndpoint.Taken, Encode, IsListing, AllListings, State.Open;
    hide CoherentIn, AttributesRight, Within, Calls, NulFree, NamesBefore, AttrsThere, AttrsFrom, Answered, Listable;
    ghost var start, shown, ttl := endp.attrs.Now(), Shown(listing, plus, zero), endp.attrs.Ttl();
    ListableAt(path, listing, endp.attrs.paths, i);
    j := LastExists(path, shown, i, |shown|);
    var rc;
    ghost var t;
    rc, t := ReaddirFetching(endp, path, listing, end, plus, zero, consumer);
    ghost var m, first, count := endp.attrs.bindings, endp.attrs.Next(), endp.attrs.Count();
    endp.ReprAllocated();
    var entryPath := PathOf(path, listing[i].name);
    r := endp.Stat(entryPath);
    endp.ClockShows(count);
    if endp.attrs.Now() <= start + ttl {
      ThereAnswered(endp.remote.lookup, endp.remote.state, m, ttl, first, endp.attrs.Now(), path, shown, start, j, r);
    }
  }

  lemma ListableAt<A>(path: string, listing: seq<DirEntry<A>>, paths: iset<string>, i: nat)
    requires Absolute(path) && Listable(path, listing, paths) && i < |listing|
    ensures NUL !in listing[i].name && EntryPath(path, listing[i].name) in paths
  {
    assert Names(listing)[i] == listing[i].name;
  }

  // Naming an entry of a directory, as the listing does.
  method PathOf(path: string, entry: string) returns (entryPath: string)
    requires Canonical(path) && NUL !in entry
    ensures entryPath == EntryPath(path, entry)
  {
    var buffer := new Str(Some(path), |path|);
    assert buffer.Text() == path;
    entryPath := NameEntry(buffer, entry, path);
  }

  lemma ThereAnswered<S, A>(lookup: (S, string) -> Reply<A>, state: S, m: map<string, Binding<A>>, ttl: nat, first: nat,
        now: nat, path: string, shown: seq<DirEntry<A>>, start: nat, j: nat, r: Reply<A>)
    requires Absolute(path) && IsLast(path, shown, j, |shown|) && AttrsThere(m, path, shown, |shown|, start)
    requires now <= start + ttl && (m != map[] ==> first <= now)
    requires Answered(lookup, state, m, ttl, first, now, EntryPath(path, shown[j].name), r)
    ensures r == Found(shown[j].stat)
  {
  }
}
