/** The caching endpoint of include/endp/cached.h and src/endp/cached.c: attributes, and the
    operations that make what is cached about a path out of date. */
module Endpoints {
  import opened Memory
  import opened Clocks
  import opened CacheStates
  import opened FileCaches
  import opened AttrCaches
  import opened Paths
  import opened Strs

  /** What the remote says about a path: its attributes, or an error code. */
  datatype Reply<A> = Found(attr: A) | Failed(rc: int)

  /** The remote operations that change what is at a path. */
  datatype Op =
    | Mkdir(path: string, mode: nat)
    | Unlink(path: string)
    | Rmdir(path: string)
    | Symlink(target: string, path: string)
    | Chmod(path: string, mode: nat)
    | Chown(path: string, uid: nat, gid: nat)
    | Utimens(path: string, atime: int, mtime: int)
  {
    /** The operations that also change the directory the path is in. */
    predicate OnDirectory() {
      Mkdir? || Unlink? || Rmdir? || Symlink?
    }
  }

  /** What the file system asks for, and what it is told. */
  datatype Request = Stat(path: string) | Change(op: Op) {
    function Path(): string {
      if Stat? then path else op.path
    }
  }

  datatype Answer<A> = Attr(reply: Reply<A>) | Code(rc: int) {
    predicate FoundOne() {
      Attr? && reply.Found?
    }
  }

  /** What a request does to the remote. */
  ghost function StateAfter<S>(apply: (S, Op) -> (S, int), state: S, request: Request): S {
    match request
    case Stat(_) => state
    case Change(op) => apply(state, op).0
  }

  /** What the remote, not cached, answers. */
  ghost function BareAnswer<S, A>(lookup: (S, string) -> Reply<A>, apply: (S, Op) -> (S, int), state: S,
        request: Request): Answer<A>
  {
    match request
    case Stat(path) => Attr(lookup(state, path))
    case Change(op) => Code(apply(state, op).1)
  }

  ghost function BareRun<S, A>(lookup: (S, string) -> Reply<A>, apply: (S, Op) -> (S, int), state: S,
        requests: seq<Request>): seq<Answer<A>>
  {
    if requests == [] then []
    else
      var next := StateAfter(apply, state, requests[0]);
      [BareAnswer(lookup, apply, state, requests[0])] + BareRun(lookup, apply, next, requests[1..])
  }

  ghost function StateAfterAll<S>(apply: (S, Op) -> (S, int), state: S, requests: seq<Request>): S {
    if requests == [] then state else StateAfterAll(apply, StateAfter(apply, state, requests[0]), requests[1..])
  }

  lemma RunOnward<S, A>(lookup: (S, string) -> Reply<A>, apply: (S, Op) -> (S, int), state: S, requests: seq<Request>,
        i: nat)
    requires i < |requests|
    ensures var next := StateAfter(apply, state, requests[i]);
      && BareRun(lookup, apply, state, requests[i..]) ==
           [BareAnswer(lookup, apply, state, requests[i])] + BareRun(lookup, apply, next, requests[i + 1..])
      && StateAfterAll(apply, state, requests[i..]) == StateAfterAll(apply, next, requests[i + 1..])
  {
    assert requests[i..][1..] == requests[i + 1..];
  }

  lemma RunOver<S, A>(lookup: (S, string) -> Reply<A>, apply: (S, Op) -> (S, int), state: S, requests: seq<Request>)
    requires requests == []
    ensures BareRun(lookup, apply, state, requests) == [] && StateAfterAll(apply, state, requests) == state
  {
  }

  /** Such a run, request by request: each is answered from the state that the ones before it have left. */
  lemma {:induction false} BareRunSteps<S, A>(lookup: (S, string) -> Reply<A>, apply: (S, Op) -> (S, int), state: S,
        requests: seq<Request>) returns (states: seq<S>)
    ensures |BareRun(lookup, apply, state, requests)| == |requests| && |states| == |requests| + 1
    ensures states[0] == state && states[|requests|] == StateAfterAll(apply, state, requests)
    ensures forall i :: 0 <= i < |requests| ==>
      var answer := BareRun(lookup, apply, state, requests)[i];
      match requests[i]
      case Stat(path) => answer == Attr(lookup(states[i], path)) && states[i + 1] == states[i]
      case Change(op) => answer == Code(apply(states[i], op).1) && states[i + 1] == apply(states[i], op).0
  {
    states := [state];
    if requests != [] {
      var next := StateAfter(apply, state, requests[0]);
      var after := BareRunSteps(lookup, apply, next, requests[1..]);
      states := [state] + after;
      var answers := BareRun(lookup, apply, next, requests[1..]);
      forall i | 0 <= i < |requests|
        ensures BareRun(lookup, apply, state, requests)[i] == BareAnswer(lookup, apply, states[i], requests[i])
        ensures states[i + 1] == StateAfter(apply, states[i], requests[i])
      {
        if i > 0 {
          assert requests[i] == requests[1..][i - 1] && states[i] == after[i - 1] && states[i + 1] == after[i];
          assert answers[i - 1] == BareAnswer(lookup, apply, after[i - 1], requests[1..][i - 1]);
        }
      }
    }
  }

  /** The state after `n` requests, each of them preceded by what others do. */
  ghost function StateAt<S>(apply: (S, Op) -> (S, int), state: S, requests: seq<Request>, outside: seq<S -> S>,
        n: nat): S
    requires n <= |requests| == |outside|
  {
    if n == 0 then state
    else
      var before := StateAt(apply, state, requests, outside, n - 1);
      StateAfter(apply, outside[n - 1](before), requests[n - 1])
  }

  /** Every request is about an absolute path in use. */
  ghost predicate AllKnown(requests: seq<Request>, paths: iset<string>) {
    forall i :: 0 <= i < |requests| ==>
      requests[i].Path() in paths && Absolute(requests[i].Path())
  }

  /** The answer is the remote's own, or attributes that the remote held at most `ttl` before the last
      instant of the history. */
  ghost predicate Timely<S, A>(lookup: (S, string) -> Reply<A>, apply: (S, Op) -> (S, int), history: seq<Instant<S>>,
        state: S, request: Request, answer: Answer<A>, ttl: nat)
    requires history != []
  {
    if request.Stat? && answer.Attr? && answer.reply.Found? then
      RecentlySo(lookup, history, request.path, answer.reply.attr, ttl, history[|history| - 1].time)
    else answer == BareAnswer(lookup, apply, state, request)
  }

  /** The wrapped endpoint: its state, what it answers about a path, and what an operation does. */
  class Remote<S, A> {
    var state: S
    const lookup: (S, string) -> Reply<A>
    const apply: (S, Op) -> (S, int)

    constructor (state: S, lookup: (S, string) -> Reply<A>, apply: (S, Op) -> (S, int))
      ensures this.state == state && this.lookup == lookup && this.apply == apply
    {
      this.state, this.lookup, this.apply := state, lookup, apply;
    }

    method Getattr(path: string) returns (r: Reply<A>)
      ensures r == lookup(state, path)
    {
      r := lookup(state, path);
    }

    method Apply(op: Op) returns (rc: int)
      modifies this
      ensures (state, rc) == apply(old(state), op)
    {
      var after := apply(state, op);
      state, rc := after.0, after.1;
    }

    // What others do to the remote.
    method Disturb(writer: S -> S)
      modifies this
      ensures state == writer(old(state))
    {
      state := writer(state);
    }
  }

  /** Of the paths in use, each operation changes what is at its own only, and one that fails changes
      nothing. */
  ghost predicate OwnPathOnly<S(!new), A>(lookup: (S, string) -> Reply<A>, apply: (S, Op) -> (S, int),
        paths: iset<string>)
  {
    forall s: S, op: Op, p: string {:trigger lookup(apply(s, op).0, p)} ::
      op.path in paths && p in paths && (apply(s, op).1 != 0 || p != op.path) ==>
        lookup(apply(s, op).0, p) == lookup(s, p)
  }

  /** Everything cached is what the remote says in this state. */
  ghost predicate CoherentIn<S, A>(lookup: (S, string) -> Reply<A>, state: S, m: map<string, Binding<A>>) {
    forall p :: p in m ==> lookup(state, p) == Found(m[p].data)
  }

  /** At `time` the remote was in `state`. */
  datatype Instant<S> = Instant(time: nat, state: S)

  /** The remote held this at `time`. */
  ghost predicate WasSo<S, A>(lookup: (S, string) -> Reply<A>, history: seq<Instant<S>>, path: string, attr: A,
        time: nat)
  {
    exists i :: 0 <= i < |history| && history[i].time == time && lookup(history[i].state, path) == Found(attr)
  }

  /** Every binding is what the remote held at the moment it was stored. */
  ghost predicate Witnessed<S, A>(lookup: (S, string) -> Reply<A>, history: seq<Instant<S>>, m: map<string, Binding<A>>)
  {
    forall p :: p in m ==> WasSo(lookup, history, p, m[p].data, m[p].stamp)
  }

  /** Every binding of `m'` is one of `m`. */
  ghost predicate Within<A>(m': map<string, Binding<A>>, m: map<string, Binding<A>>) {
    forall p :: p in m' ==> p in m && m'[p] == m[p]
  }

  /** Every binding of `m` but that of `path` that has not expired at time `t` is in `m'` too. */
  ghost predicate KeptBut<A>(m': map<string, Binding<A>>, m: map<string, Binding<A>>, ttl: nat, t: nat, path: string) {
    forall p {:trigger p in m'} {:trigger p in m} ::
      p in m && !Expired(m[p].stamp, ttl, t) && p != path ==> p in m' && m'[p] == m[p]
  }

  lemma LiveKept<A>(m: map<string, Binding<A>>, ttl: nat, t: nat, t': nat, path: string)
    requires t <= t'
    ensures KeptBut(LiveMap(m, ttl, t), m, ttl, t', path)
    ensures path in m && !Expired(m[path].stamp, ttl, t') ==>
      path in LiveMap(m, ttl, t) && LiveMap(m, ttl, t)[path] == m[path]
  {
  }

  /** Every binding of `m` that has not expired at time `t` is in `m'` too. */
  ghost predicate Kept<A>(m': map<string, Binding<A>>, m: map<string, Binding<A>>, ttl: nat, t: nat) {
    forall p {:trigger p in m'} {:trigger p in m} :: p in m && !Expired(m[p].stamp, ttl, t) ==> p in m' && m'[p] == m[p]
  }

  lemma KeptToo<A>(m': map<string, Binding<A>>, m: map<string, Binding<A>>, ttl: nat, t: nat, path: string)
    requires KeptBut(m', m, ttl, t, path)
    requires path in m && !Expired(m[path].stamp, ttl, t) ==> path in m' && m'[path] == m[path]
    ensures Kept(m', m, ttl, t)
  {
  }

  /** Every binding of `m'` is one of `m`, or what the remote says in this state. */
  ghost predicate Sourced<S, A>(lookup: (S, string) -> Reply<A>, state: S, m': map<string, Binding<A>>,
        m: map<string, Binding<A>>)
  {
    forall p :: p in m' ==> (p in m && m'[p] == m[p]) || lookup(state, p) == Found(m'[p].data)
  }

  /** What a getattr may answer that finds `m` cached, is begun before the clock shows `first`, and is done
      at time `t`: what is cached if that has not expired by then, what the remote says if it had expired
      before, and either of them if it expires in between. */
  ghost predicate Answered<S, A>(lookup: (S, string) -> Reply<A>, state: S, m: map<string, Binding<A>>, ttl: nat,
        first: nat, t: nat, path: string, r: Reply<A>)
  {
    && (r == lookup(state, path) ||
        (path in m && !Expired(m[path].stamp, ttl, first) && r == Found(m[path].data)))
    && (path in m && !Expired(m[path].stamp, ttl, first) && !Expired(m[path].stamp, ttl, t) ==>
          r == Found(m[path].data))
  }

  lemma StillLive(stamp: nat, ttl: nat, first: nat, t: nat)
    requires first <= t <= stamp + ttl
    ensures !Expired(stamp, ttl, first)
  {
  }

  lemma SourcedOn<S, A>(lookup: (S, string) -> Reply<A>, state: S, m: map<string, Binding<A>>,
        m1: map<string, Binding<A>>, m2: map<string, Binding<A>>, ttl: nat, t1: nat, t2: nat)
    requires Sourced(lookup, state, m1, m) && Kept(m1, m, ttl, t1) && t1 <= t2
    requires Sourced(lookup, state, m2, m1) && Kept(m2, m1, ttl, t2)
    ensures Sourced(lookup, state, m2, m) && Kept(m2, m, ttl, t2)
  {
  }

  // An answer from what is left of `m` is one from `m`.
  lemma AnsweredOn<S, A>(lookup: (S, string) -> Reply<A>, state: S, m: map<string, Binding<A>>,
        m1: map<string, Binding<A>>, ttl: nat, first: nat, first': nat, t1: nat, t2: nat, path: string, r: Reply<A>)
    requires Sourced(lookup, state, m1, m) && Kept(m1, m, ttl, t1) && t1 <= t2 && first <= first'
    requires m1 != map[] ==> first' <= t2
    requires Answered(lookup, state, m1, ttl, first', t2, path, r)
    ensures Answered(lookup, state, m, ttl, first, t2, path, r)
  {
  }

  lemma SourcedCoherent<S, A>(lookup: (S, string) -> Reply<A>, state: S, m: map<string, Binding<A>>,
        m': map<string, Binding<A>>)
    requires CoherentIn(lookup, state, m) && Sourced(lookup, state, m', m)
    ensures CoherentIn(lookup, state, m')
  {
  }

  /** What storing attributes now leaves: the path bound to them, and of the other paths what has not expired. */
  ghost predicate Stored<A>(m': map<string, Binding<A>>, m: map<string, Binding<A>>, ttl: nat, now: nat, path: string,
        attr: A)
  {
    && path in m' && m'[path] == Binding(attr, now)
    && Within(m' - {path}, m) && KeptBut(m', m, ttl, now, path)
  }

  lemma LiveStored<A>(m: map<string, Binding<A>>, ttl: nat, t: nat, now: nat, path: string, attr: A)
    requires t <= now
    ensures Stored(LiveMap(m, ttl, t)[path := Binding(attr, now)], m, ttl, now, path, attr)
  {
  }

  lemma StoredOn<A>(m: map<string, Binding<A>>, m1: map<string, Binding<A>>, m2: map<string, Binding<A>>, ttl: nat,
        t: nat, path: string, attr: A)
    requires Within(m1, m) && KeptBut(m1, m, ttl, t, path) && Stored(m2, m1, ttl, t, path, attr)
    ensures Stored(m2, m, ttl, t, path, attr)
  {
  }

  lemma StoredKept<A>(m: map<string, Binding<A>>, m': map<string, Binding<A>>, ttl: nat, t: nat, path: string, attr: A)
    requires Stored(m', m, ttl, t, path, attr) && !(path in m && !Expired(m[path].stamp, ttl, t))
    ensures Kept(m', m, ttl, t)
  {
  }

  lemma WithinSourced<S, A>(lookup: (S, string) -> Reply<A>, state: S, m: map<string, Binding<A>>,
        m': map<string, Binding<A>>)
    requires Within(m', m)
    ensures Sourced(lookup, state, m', m)
  {
  }

  // Storing what the remote says keeps every binding sourced.
  lemma StoredSourced<S, A>(lookup: (S, string) -> Reply<A>, state: S, m: map<string, Binding<A>>,
        m': map<string, Binding<A>>, ttl: nat, now: nat, path: string, attr: A)
    requires Stored(m', m, ttl, now, path, attr) && lookup(state, path) == Found(attr)
    ensures Sourced(lookup, state, m', m)
  {
    forall p | p in m' && p != path ensures p in m && m'[p] == m[p] {
      assert p in m' - {path};
    }
  }

  lemma LiveWithin<A>(m: map<string, Binding<A>>, ttl: nat, t: nat, gone: set<string>)
    ensures Within(LiveMap(m, ttl, t), m) && Within(LiveMap(m, ttl, t) - gone, m)
    ensures forall p :: p in LiveMap(m, ttl, t) ==> t <= LiveMap(m, ttl, t)[p].stamp + ttl
  {
  }

  /** At some recorded moment, no longer than `ttl` before `now`, the remote held this. */
  ghost predicate RecentlySo<S, A>(lookup: (S, string) -> Reply<A>, history: seq<Instant<S>>, path: string, attr: A,
        ttl: nat, now: nat)
  {
    exists i ::
      && 0 <= i < |history| && history[i].time <= now <= history[i].time + ttl
      && lookup(history[i].state, path) == Found(attr)
  }

  lemma WasSoStill<S, A>(lookup: (S, string) -> Reply<A>, history: seq<Instant<S>>, now: Instant<S>, path: string,
        attr: A, time: nat)
    requires WasSo(lookup, history, path, attr, time)
    ensures WasSo(lookup, history + [now], path, attr, time)
  {
    var i :| 0 <= i < |history| && history[i].time == time && lookup(history[i].state, path) == Found(attr);
    assert (history + [now])[i] == history[i];
  }

  // What is left of a witnessed cache is witnessed.
  lemma WitnessedWithin<S, A>(lookup: (S, string) -> Reply<A>, history: seq<Instant<S>>, now: Instant<S>,
        m: map<string, Binding<A>>, m': map<string, Binding<A>>)
    requires Witnessed(lookup, history, m) && Within(m', m)
    ensures Witnessed(lookup, history + [now], m')
  {
    forall p | p in m' ensures WasSo(lookup, history + [now], p, m'[p].data, m'[p].stamp) {
      WasSoStill(lookup, history, now, p, m[p].data, m[p].stamp);
    }
  }

  lemma WitnessedAt<S, A>(lookup: (S, string) -> Reply<A>, history: seq<Instant<S>>, m: map<string, Binding<A>>,
        path: string)
    requires Witnessed(lookup, history, m) && path in m
    ensures WasSo(lookup, history, path, m[path].data, m[path].stamp)
  {
  }

  // Storing what the remote says now keeps every binding witnessed.
  lemma NowWitnessed<S, A>(lookup: (S, string) -> Reply<A>, history: seq<Instant<S>>, now: Instant<S>,
        m: map<string, Binding<A>>, path: string, attr: A)
    requires Witnessed(lookup, history + [now], m) && lookup(now.state, path) == Found(attr)
    ensures Witnessed(lookup, history + [now], m[path := Binding(attr, now.time)])
  {
    assert (history + [now])[|history|] == now;
  }

  // A hit is as recent as its binding.
  lemma HitRecent<S, A>(lookup: (S, string) -> Reply<A>, history: seq<Instant<S>>, path: string, b: Binding<A>,
        ttl: nat, now: nat)
    requires WasSo(lookup, history, path, b.data, b.stamp) && b.stamp <= now <= b.stamp + ttl
    ensures RecentlySo(lookup, history, path, b.data, ttl, now)
  {
  }

  lemma MissRecent<S, A>(lookup: (S, string) -> Reply<A>, history: seq<Instant<S>>, now: Instant<S>, path: string,
        attr: A, ttl: nat)
    requires lookup(now.state, path) == Found(attr)
    ensures RecentlySo(lookup, history + [now], path, attr, ttl, now.time)
  {
    assert (history + [now])[|history|] == now;
  }

  // An operation that took effect at its own path leaves the rest of a coherent cache coherent.
  lemma ChangeCoherent<S(!new), A>(lookup: (S, string) -> Reply<A>, apply: (S, Op) -> (S, int), paths: iset<string>,
        state: S, op: Op, m: map<string, Binding<A>>, m': map<string, Binding<A>>)
    requires OwnPathOnly(lookup, apply, paths) && CoherentIn(lookup, state, m) && Within(m', m)
    requires op.path in paths && forall p :: p in m ==> p in paths
    requires apply(state, op).1 == 0 ==> op.path !in m'
    ensures CoherentIn(lookup, apply(state, op).0, m')
  {
  }

  /** At everything cached the remote says the same in both states. */
  ghost predicate SameAt<S, A>(lookup: (S, string) -> Reply<A>, state: S, state': S, m: map<string, Binding<A>>) {
    forall p :: p in m ==> lookup(state', p) == lookup(state, p)
  }

  // What is left of a coherent cache is coherent in another state exactly if nothing has changed there.
  lemma CoherentOnIff<S, A>(lookup: (S, string) -> Reply<A>, state: S, state': S, m: map<string, Binding<A>>,
        m': map<string, Binding<A>>)
    requires CoherentIn(lookup, state, m) && Within(m', m)
    ensures CoherentIn(lookup, state', m') <==> SameAt(lookup, state, state', m')
  {
  }

  /** A path that does not start with two separators, as the file system hands it out. */
  ghost predicate Plain(path: string) {
    Absolute(path) && (|path| > 1 ==> path[1] != '/')
  }

  /** What a listing of the root takes for the path of an entry. */
  function Doubled(path: string): string {
    "/" + path
  }

  /** The remote takes two separators in front for one. */
  ghost predicate SlashBlind<S(!new), A>(lookup: (S, string) -> Reply<A>) {
    forall s: S, p: string {:trigger lookup(s, Doubled(p))} :: Plain(p) ==> lookup(s, Doubled(p)) == lookup(s, p)
  }

  /** OwnPathOnly for such a remote: each operation changes what is at its own path, under both names. */
  ghost predicate OwnObjectOnly<S(!new), A>(lookup: (S, string) -> Reply<A>, apply: (S, Op) -> (S, int),
        paths: iset<string>)
  {
    forall s: S, op: Op, p: string {:trigger lookup(apply(s, op).0, p)} ::
      && Plain(op.path) && op.path in paths && p in paths
      && (apply(s, op).1 != 0 || (p != op.path && p != Doubled(op.path)))
      ==> lookup(apply(s, op).0, p) == lookup(s, p)
  }

  /** Whether an operation leaves a coherent cache coherent: it fails, nothing is left cached under the
      other name of its path, or nothing changes there. */
  ghost predicate RootHarmless<S, A>(lookup: (S, string) -> Reply<A>, apply: (S, Op) -> (S, int), state: S, op: Op,
        m': map<string, Binding<A>>)
  {
    var after := apply(state, op);
    after.1 != 0 || Doubled(op.path) !in m' || lookup(after.0, op.path) == lookup(state, op.path)
  }

  /** On a remote that takes two separators in front for one, the listing of the root leaves attributes
      behind that changes do not reach. */
  lemma RootChangeIff<S(!new), A>(lookup: (S, string) -> Reply<A>, apply: (S, Op) -> (S, int), paths: iset<string>,
        state: S, op: Op, m: map<string, Binding<A>>, m': map<string, Binding<A>>)
    requires SlashBlind(lookup) && OwnObjectOnly(lookup, apply, paths) && CoherentIn(lookup, state, m) && Within(m', m)
    requires Plain(op.path) && op.path in paths && forall p :: p in m ==> p in paths
    requires apply(state, op).1 == 0 ==> op.path !in m'
    ensures CoherentIn(lookup, apply(state, op).0, m') <==> RootHarmless(lookup, apply, state, op, m')
  {
    if Doubled(op.path) in m' {
      assert m'[Doubled(op.path)] == m[Doubled(op.path)];
      assert lookup(state, Doubled(op.path)) == lookup(state, op.path);
    }
  }

  /** OwnPathOnly for a remote on which making or removing an entry changes the directory, too. */
  ghost predicate OwnAndParentOnly<S(!new), A>(lookup: (S, string) -> Reply<A>, apply: (S, Op) -> (S, int),
        paths: iset<string>)
  {
    forall s: S, op: Op, p: string {:trigger lookup(apply(s, op).0, p)} ::
      && Absolute(op.path) && op.path in paths && p in paths
      && (apply(s, op).1 != 0 || (p != op.path && !(op.OnDirectory() && p == ParentOf(op.path))))
      ==> lookup(apply(s, op).0, p) == lookup(s, p)
  }

  /** Whether an operation leaves a coherent cache coherent: it fails, it is not on a directory's entries,
      the directory is not left cached, or nothing changes there. */
  ghost predicate ParentHarmless<S, A>(lookup: (S, string) -> Reply<A>, apply: (S, Op) -> (S, int), state: S, op: Op,
        m': map<string, Binding<A>>)
    requires Absolute(op.path)
  {
    var after, parent := apply(state, op), ParentOf(op.path);
    after.1 != 0 || !op.OnDirectory() || parent !in m' || lookup(after.0, parent) == lookup(state, parent)
  }

  /** On such a remote an operation leaves attributes behind that are out of date for the parent only. */
  lemma ParentChangeIff<S(!new), A>(lookup: (S, string) -> Reply<A>, apply: (S, Op) -> (S, int), paths: iset<string>,
        state: S, op: Op, m: map<string, Binding<A>>, m': map<string, Binding<A>>)
    requires OwnAndParentOnly(lookup, apply, paths) && CoherentIn(lookup, state, m) && Within(m', m)
    requires Absolute(op.path) && op.path in paths && forall p :: p in m ==> p in paths
    requires apply(state, op).1 == 0 ==> op.path !in m'
    ensures CoherentIn(lookup, apply(state, op).0, m') <==> ParentHarmless(lookup, apply, state, op, m')
  {
    if ParentOf(op.path) in m' {
      assert m'[ParentOf(op.path)] == m[ParentOf(op.path)];
    }
  }

  // What an operation does to coherence, by what is known of the remote.
  lemma CoherentAfter<S(!new), A>(lookup: (S, string) -> Reply<A>, apply: (S, Op) -> (S, int), paths: iset<string>,
        state: S, op: Op, m: map<string, Binding<A>>, m': map<string, Binding<A>>)
    requires CoherentIn(lookup, state, m) && Within(m', m) && op.path in paths && forall p :: p in m ==> p in paths
    requires Absolute(op.path) && (apply(state, op).1 == 0 ==> op.path !in m')
    ensures OwnPathOnly(lookup, apply, paths) ==> CoherentIn(lookup, apply(state, op).0, m')
    ensures CoherentIn(lookup, apply(state, op).0, m') <==> SameAt(lookup, state, apply(state, op).0, m')
    ensures SlashBlind(lookup) && OwnObjectOnly(lookup, apply, paths) && Plain(op.path) ==>
      (CoherentIn(lookup, apply(state, op).0, m') <==> RootHarmless(lookup, apply, state, op, m'))
    ensures OwnAndParentOnly(lookup, apply, paths) ==>
      (CoherentIn(lookup, apply(state, op).0, m') <==> ParentHarmless(lookup, apply, state, op, m'))
  {
    hide OwnPathOnly, SlashBlind, OwnObjectOnly, RootHarmless, Plain, SameAt, OwnAndParentOnly, ParentHarmless;
    if OwnAndParentOnly(lookup, apply, paths) {
      ParentChangeIff(lookup, apply, paths, state, op, m, m');
    }
    if OwnPathOnly(lookup, apply, paths) {
      ChangeCoherent(lookup, apply, paths, state, op, m, m');
    }
    CoherentOnIff(lookup, state, apply(state, op).0, m, m');
    if SlashBlind(lookup) && OwnObjectOnly(lookup, apply, paths) && Plain(op.path) {
      RootChangeIff(lookup, apply, paths, state, op, m, m');
    }
  }

  // No stored path that str_eq takes for the shortened one is the parent.
  lemma ParentMissed(path: string)
    requires Absolute(path) && path != "/"
    ensures ParentOf(path) != path && !StrEq(ParentOf(path), CutTooShort(path))
  {
    var sep := LastSeparator(path);
    if sep == 0 {
      assert |path| > 1;
    }
  }

  // What an operation has left of the attributes.
  lemma AfterChange<A>(m: map<string, Binding<A>>, m': map<string, Binding<A>>, ttl: nat, t: nat, path: string)
    requires Purged(m', m, ttl, t, path, true) || exists base, known :: PurgedBoth(m', m, ttl, t, path, base, known)
    ensures Within(m', m) && path !in m'
  {
  }

  // What was not the path, nor taken for the shortened one, is left.
  lemma OthersLeft<A>(m: map<string, Binding<A>>, m': map<string, Binding<A>>, ttl: nat, t: nat, path: string,
        base: string, known: bool, both: bool)
    requires if both then PurgedBoth(m', m, ttl, t, path, base, known) else m' == m || Purged(m', m, ttl, t, path, true)
    ensures forall p ::
      && p in m && t <= m[p].stamp + ttl && p != path && !(both && (if known then p == base else p <= base))
      ==> p in m' && m'[p] == m[p]
    ensures both && known ==> base !in m'
  {
    assert both ==> forall p :: p in m && t <= m[p].stamp + ttl ==> p in LiveMap(m, ttl, t);
  }

  lemma ParentKept<A>(m: map<string, Binding<A>>, m': map<string, Binding<A>>, ttl: nat, t: nat, path: string,
        known: bool)
    requires Absolute(path) && PurgedBoth(m', m, ttl, t, path, CutTooShort(path), known)
    ensures ParentOf(path) in LiveMap(m, ttl, t) ==> (ParentOf(path) in m' <==> path != "/")
  {
    if path != "/" {
      ParentMissed(path);
    }
  }

  /** The answers given so far, each at its instant: the instants are in order and hold the states
      that the remote went through, and no answer was older than `ttl`. */
  ghost predicate NeverStale<S, A>(lookup: (S, string) -> Reply<A>, apply: (S, Op) -> (S, int), state: S,
        requests: seq<Request>, outside: seq<S -> S>, seen: seq<Instant<S>>, answers: seq<Answer<A>>, ttl: nat)
    requires |answers| == |seen| <= |requests| == |outside|
  {
    && InOrder(seen)
    && (forall i :: 0 <= i < |seen| ==> seen[i].state == StateAt(apply, state, requests, outside, i + 1))
    && forall i :: 0 <= i < |seen| ==> TimelyAt(lookup, apply, state, requests, outside, seen, answers, ttl, i)
  }

  ghost predicate InOrder<S>(seen: seq<Instant<S>>) {
    forall i, j :: 0 <= i < j < |seen| ==> seen[i].time <= seen[j].time
  }

  /** The answer to request `i` was in time. */
  ghost predicate TimelyAt<S, A>(lookup: (S, string) -> Reply<A>, apply: (S, Op) -> (S, int), state: S,
        requests: seq<Request>, outside: seq<S -> S>, seen: seq<Instant<S>>, answers: seq<Answer<A>>, ttl: nat, i: nat)
    requires i < |answers| == |seen| <= |requests| == |outside|
  {
    var before := outside[i](StateAt(apply, state, requests, outside, i));
    Timely(lookup, apply, seen[..i + 1], before, requests[i], answers[i], ttl)
  }

  /** Such a run, request by request: others work, the request takes effect, and attributes that were not
      the remote's by then were so at the instant of an earlier answer, no more than `ttl` before. */
  lemma NeverStaleSteps<S, A>(lookup: (S, string) -> Reply<A>, apply: (S, Op) -> (S, int), state: S,
        requests: seq<Request>, outside: seq<S -> S>, seen: seq<Instant<S>>, answers: seq<Answer<A>>, ttl: nat, i: nat)
    requires i < |answers| == |seen| <= |requests| == |outside|
    requires NeverStale(lookup, apply, state, requests, outside, seen, answers, ttl)
    ensures i > 0 ==> seen[i - 1].time <= seen[i].time
    ensures var before := outside[i](if i == 0 then state else seen[i - 1].state);
      match requests[i]
      case Change(op) => answers[i] == Code(apply(before, op).1) && seen[i].state == apply(before, op).0
      case Stat(path) =>
        && seen[i].state == before && answers[i].Attr?
        && (answers[i] == Attr(lookup(before, path)) ||
            (answers[i].reply.Found? && exists j ::
               && 0 <= j <= i && seen[j].time <= seen[i].time <= seen[j].time + ttl
               && lookup(seen[j].state, path) == answers[i].reply))
  {
    assert TimelyAt(lookup, apply, state, requests, outside, seen, answers, ttl, i);
    var before := outside[i](StateAt(apply, state, requests, outside, i));
    assert i > 0 ==> seen[i - 1].state == StateAt(apply, state, requests, outside, i);
    if requests[i].Stat? && answers[i].FoundOne() {
      var history, path, attr := seen[..i + 1], requests[i].path, answers[i].reply.attr;
      assert history[|history| - 1] == seen[i];
      var j :|
        && 0 <= j < |history| && history[j].time <= seen[i].time <= history[j].time + ttl
        && lookup(history[j].state, path) == Found(attr);
      assert history[j] == seen[j];
    }
  }

  /** Each instant is when the clock was last read by then; how often that was never goes down, and up
      with every getattr that found something. */
  ghost predicate OnTheClock<S, A>(clock: Clock, start: nat, end: nat, counts: seq<nat>, seen: seq<Instant<S>>,
        answers: seq<Answer<A>>)
  {
    && |counts| == |seen| == |answers|
    && (forall i :: 0 <= i < |counts| ==>
          && start <= counts[i] <= end && (answers[i].FoundOne() ==> start < counts[i])
          && seen[i].time == clock.LastBefore(counts[i]))
    && (forall i, j :: 0 <= i < j < |counts| ==>
          counts[i] <= counts[j] && (answers[j].FoundOne() ==> counts[i] < counts[j]))
  }

  lemma NothingCounted<S, A>(clock: Clock, start: nat, seen: seq<Instant<S>>, answers: seq<Answer<A>>)
    requires seen == [] && answers == []
    ensures OnTheClock(clock, start, start, [], seen, answers)
  {
  }

  lemma OneMoreCounted<S, A>(clock: Clock, start: nat, count: nat, count': nat, counts: seq<nat>, seen: seq<Instant<S>>,
        answers: seq<Answer<A>>, now: Instant<S>, answer: Answer<A>)
    requires OnTheClock(clock, start, count, counts, seen, answers) && start <= count <= count'
    requires now.time == clock.LastBefore(count') && (answer.FoundOne() ==> count < count')
    ensures OnTheClock(clock, start, count', counts + [count'], seen + [now], answers + [answer])
  {
  }

  /** How sharp this is: if no two readings of the clock in the run are within the time to live, whatever
      a getattr finds is what the remote says at that moment. */
  lemma CurrentIfSlow<S, A>(lookup: (S, string) -> Reply<A>, apply: (S, Op) -> (S, int), state: S,
        requests: seq<Request>, outside: seq<S -> S>, seen: seq<Instant<S>>, answers: seq<Answer<A>>, ttl: nat,
        clock: Clock, start: nat, end: nat, counts: seq<nat>, i: nat)
    requires i < |answers| == |seen| == |counts| <= |requests| == |outside|
    requires NeverStale(lookup, apply, state, requests, outside, seen, answers, ttl)
    requires OnTheClock(clock, start, end, counts, seen, answers)
    requires forall j: nat, k: nat :: j < k <= end ==> clock.LastBefore(j) + ttl < clock.LastBefore(k)
    ensures answers[i] ==
      BareAnswer(lookup, apply, outside[i](StateAt(apply, state, requests, outside, i)), requests[i])
  {
    var before := outside[i](StateAt(apply, state, requests, outside, i));
    assert TimelyAt(lookup, apply, state, requests, outside, seen, answers, ttl, i);
    if requests[i].Stat? && answers[i].FoundOne() {
      var history, path, attr := seen[..i + 1], requests[i].path, answers[i].reply.attr;
      assert history[|history| - 1] == seen[i];
      var j :|
        && 0 <= j < |history| && history[j].time <= seen[i].time <= history[j].time + ttl
        && lookup(history[j].state, path) == Found(attr);
      assert history[j] == seen[j] && seen[i].time == clock.LastBefore(counts[i]);
      assert j == i && seen[i].state == before;
    }
  }

  lemma NothingWitnessed<S, A>(lookup: (S, string) -> Reply<A>, m: map<string, Binding<A>>)
    requires m == map[]
    ensures Witnessed(lookup, [], m)
    ensures forall state: S, apply: (S, Op) -> (S, int), requests: seq<Request>, outside: seq<S -> S>, ttl: nat ::
      |requests| == |outside| ==> NeverStale(lookup, apply, state, requests, outside, [], [], ttl)
  {
  }

  lemma OneMoreAnswer<S, A>(lookup: (S, string) -> Reply<A>, apply: (S, Op) -> (S, int), state: S,
        requests: seq<Request>, outside: seq<S -> S>, seen: seq<Instant<S>>, answers: seq<Answer<A>>, ttl: nat,
        now: Instant<S>, answer: Answer<A>)
    requires |answers| == |seen| < |requests| == |outside|
    requires NeverStale(lookup, apply, state, requests, outside, seen, answers, ttl)
    requires seen != [] ==> seen[|seen| - 1].time <= now.time
    requires now.state == StateAt(apply, state, requests, outside, |seen| + 1)
    requires var before := outside[|seen|](StateAt(apply, state, requests, outside, |seen|));
      Timely(lookup, apply, seen + [now], before, requests[|seen|], answer, ttl)
    ensures NeverStale(lookup, apply, state, requests, outside, seen + [now], answers + [answer], ttl)
  {
    hide Timely, StateAt;
    var seen', answers' := seen + [now], answers + [answer];
    forall i | 0 <= i < |seen'| ensures TimelyAt(lookup, apply, state, requests, outside, seen', answers', ttl, i) {
      if i < |seen| {
        assert TimelyAt(lookup, apply, state, requests, outside, seen, answers, ttl, i);
        assert seen'[..i + 1] == seen[..i + 1];
      } else {
        assert seen'[..i + 1] == seen';
      }
    }
  }

  /** What is left of `m` after `path` was invalidated: nothing but what str_eq takes for the path
      has gone, and that is the path itself if it is in use. */
  ghost predicate Purged<A>(m': map<string, Binding<A>>, m: map<string, Binding<A>>, ttl: nat, t: nat, path: string,
        known: bool)
  {
    exists gone: set<string> ::
      && m' == LiveMap(m, ttl, t) - gone
      && |gone| <= 1 && (forall p :: p in gone ==> StrEq(p, path)) && (known ==> gone == {path})
  }

  /** Whether there is a shortened path to invalidate, and it is in use. */
  ghost predicate CutKnown(path: string, paths: iset<string>)
    requires Absolute(path)
  {
    0 < LastSeparator(path) && CutTooShort(path) in paths
  }

  /** A path that may go with `path`: the shortened one if that is in use, and otherwise what str_eq takes
      for it. */
  ghost predicate TakenForCut(p: string, path: string, paths: iset<string>)
    requires Absolute(path)
  {
    if CutKnown(path, paths) then p == CutTooShort(path) else p <= CutTooShort(path)
  }

  /** What is left of `m` after `path` and the path `base` were invalidated in turn: nothing but what
      str_eq takes for `base` has gone with `path`, and that is `base` itself if it is known to be in use. */
  ghost predicate PurgedBoth<A>(m': map<string, Binding<A>>, m: map<string, Binding<A>>, ttl: nat, t: nat, path: string,
        base: string, known: bool)
  {
    && Within(m', m) && path !in m' && (known ==> base !in m')
    && forall p :: p in LiveMap(m, ttl, t) && p != path && (!StrEq(p, base) || (known && p != base)) ==> p in m'
  }

  lemma PurgedFirst<A>(m: map<string, Binding<A>>, m': map<string, Binding<A>>, ttl: nat, t: nat, path: string,
        base: string)
    requires Purged(m', m, ttl, t, path, true)
    ensures path !in m' && Within(m', m)
    ensures PurgedBoth(m', m, ttl, t, path, base, false)
  {
  }

  lemma PurgedSecond<A>(m: map<string, Binding<A>>, m1: map<string, Binding<A>>, m2: map<string, Binding<A>>, ttl: nat,
        t1: nat, t2: nat, path: string, base: string, known: bool)
    requires Purged(m1, m, ttl, t1, path, true) && Purged(m2, m1, ttl, t2, base, known) && t1 <= t2
    ensures PurgedBoth(m2, m, ttl, t2, path, base, known)
  {
  }

  // One of the three caches, on a clock of its own.
  method NewFileCache<D(0)>(config: Config, horizon: nat, hashOf: string -> nat, ghost paths: iset<string>,
        ghost others: set<object>) returns (c: FileCache<D>)
    requires NoPrefixCollision(paths, hashOf) && config.Fits(horizon)
    ensures c.Valid() && fresh(c.Repr()) && c.bindings == map[] && c.cache.View().Open() == map[]
    ensures c.Ttl() == config.ttl && c.paths == paths && c.Repr() !! others
    ensures c.cache.list.clock.reading == config.reading && c.Count() == 0
  {
    hide FileCache.Valid, NoPrefixCollision, Caches.Cache.View, State.Open, NeverBack;
    var clock := new Clock(config.reading, horizon);
    c := new FileCache(clock, config.ttl, hashOf, paths);
  }

  method NewFileCaches<A(0)>(ofAttrs: Config, ofDirs: Config, ofLinks: Config, horizon: nat, hashOf: string -> nat,
        ghost paths: iset<string>) returns (a: FileCache<A>, d: FileCache<string>, l: FileCache<string>)
    requires NoPrefixCollision(paths, hashOf) && ofAttrs.Fits(horizon) && ofDirs.Fits(horizon) && ofLinks.Fits(horizon)
    ensures a.Valid() && d.Valid() && l.Valid() && a.Repr() !! d.Repr() !! l.Repr()
    ensures fresh(a.Repr()) && fresh(d.Repr()) && fresh(l.Repr())
    ensures a.bindings == map[] && d.bindings == map[] && l.bindings == map[]
    ensures a.cache.View().Open() == map[] && d.cache.View().Open() == map[] && l.cache.View().Open() == map[]
    ensures a.paths == paths && d.paths == paths && l.paths == paths
    ensures a.Ttl() == ofAttrs.ttl && d.Ttl() == ofDirs.ttl && l.Ttl() == ofLinks.ttl
    ensures a.cache.list.clock.reading == ofAttrs.reading && d.cache.list.clock.reading == ofDirs.reading
    ensures l.cache.list.clock.reading == ofLinks.reading && a.Count() == d.Count() == l.Count() == 0
  {
    hide FileCache.Valid, NoPrefixCollision, Config.Fits;
    a := NewFileCache(ofAttrs, horizon, hashOf, paths, {});
    d := NewFileCache(ofDirs, horizon, hashOf, paths, a.Repr());
    l := NewFileCache(ofLinks, horizon, hashOf, paths, a.Repr() + d.Repr());
  }

  /** sftfs_cache_invalidate_attr, sftfs_cache_invalidate_dir and sftfs_cache_invalidate_symlink */
  method Purge<D(0)>(c: FileCache<D>, path: string)
    requires c.Valid()
    modifies c.Repr()
    ensures c.Valid() && c.Repr() == old(c.Repr()) && c.Aged()
    ensures c.cache.View().Open() == old(c.cache.View().Open())
    ensures Purged(c.bindings, old(c.bindings), c.Ttl(), c.Now(), path, path in c.paths)
  {
    hide FileCache.Valid, LiveMap;
    var status;
    ghost var gone;
    status, gone := c.InvalidateFile(path);
  }

  /** sftfs_cache_take_dir: the listing as it was cached, or an empty one. */
  method TakeListing(dirs: FileCache<string>, path: string) returns (dir: Ptr, text: string, ghost t: nat)
    requires dirs.Valid() && path in dirs.paths && dirs.Closed(path)
    modifies dirs.Repr()
    ensures dirs.Valid() && fresh(dirs.Repr() - old(dirs.Repr())) && dirs.Aged() && old(dirs.Now()) <= t <= dirs.Now()
    ensures dirs.bindings == LiveMap(old(dirs.bindings), dirs.Ttl(), dirs.Now()) - {path}
    ensures dir !in old(dirs.cache.View().Open())
    ensures dirs.cache.View().Open() == old(dirs.cache.View().Open())[dir := File(path, text)]
    ensures path !in LiveMap(old(dirs.bindings), dirs.Ttl(), t) ==> text == ""
    ensures path in LiveMap(old(dirs.bindings), dirs.Ttl(), t) ==>
      path in old(dirs.bindings) && text == old(dirs.bindings)[path].data
  {
    hide FileCache.Valid, FileCache.Closed, Caches.Cache.Valid, Tidy, LiveMap, State.Open;
    ghost var m := dirs.bindings;
    var isNew;
    dir, isNew, t := dirs.TakeFile(path);
    text := dirs.cache.body[dir].data;
    if isNew {
      text := "";
      dirs.SetData(dir, text);
    } else {
      LiveDatum(m, path, dirs.Ttl(), t);
    }
  }

  class CachedEndpoint<S(!new), A(0, !new)> {
    const remote: Remote<S, A>
    const attrs: FileCache<A>
    const dirs: FileCache<string>
    const links: FileCache<string>

    ghost predicate Valid()
      reads this, attrs, dirs, links, attrs.cache, dirs.cache, links.cache, Repr()
    {
      && attrs.Valid() && dirs.Valid() && links.Valid()
      && attrs.Repr() !! dirs.Repr() !! links.Repr()
      && {this, remote} !! attrs.Repr() + dirs.Repr() + links.Repr()
      && attrs.cache.View().Open() == map[]
      && dirs.paths == attrs.paths && links.paths == attrs.paths
    }

    ghost function Repr(): set<object>
      reads this, attrs, dirs, links, attrs.cache, dirs.cache, links.cache
    {
      {this, remote} + attrs.Repr() + dirs.Repr() + links.Repr()
    }

    /** What the endpoint did not consist of before is new. */
    twostate predicate Grown()
      reads this, attrs, dirs, links, attrs.cache, dirs.cache, links.cache
    {
      forall o :: o in Repr() ==> o in old(Repr()) || fresh(o)
    }

    /** The directories that are taken from their cache. */
    ghost function Taken(): map<Ptr, File<string>>
      reads dirs, dirs.cache, dirs.cache.table, dirs.cache.list
    {
      dirs.cache.View().Open()
    }

    lemma ClockShows(k: nat)
      requires Valid()
      ensures attrs.Now() == attrs.cache.list.clock.LastBefore(attrs.Count())
      ensures k < attrs.Count() ==> attrs.cache.list.clock.reading(k) <= attrs.Now()
      ensures k <= attrs.Count() ==> attrs.cache.list.clock.reading(k) <= attrs.Next()
    {
      hide FileCache.Valid;
      attrs.ClockShows(k);
    }

    lemma BoundInThePast()
      requires Valid()
      ensures forall p :: p in attrs.bindings ==> attrs.bindings[p].stamp <= attrs.Now()
    {
      hide FileCache.Valid;
      attrs.BoundInThePast();
    }

    lemma BoundInUse()
      requires Valid()
      ensures forall p :: p in attrs.bindings ==> p in attrs.paths
    {
      hide FileCache.Valid;
      attrs.BoundInUse();
    }

    lemma ReprAllocated()
      ensures forall o :: o in Repr() ==> allocated(o)
    {
    }

    /** Everything cached about a path is what the remote says about it now. */
    ghost predicate Coherent()
      reads remote, attrs
    {
      CoherentIn(remote.lookup, remote.state, attrs.bindings)
    }

    /** sftfs_cached_construct */
    constructor (remote: Remote<S, A>, ofAttrs: Config, ofDirs: Config, ofLinks: Config, horizon: nat,
          hashOf: string -> nat, ghost paths: iset<string>)
      requires NoPrefixCollision(paths, hashOf)
      requires ofAttrs.Fits(horizon) && ofDirs.Fits(horizon) && ofLinks.Fits(horizon)
      ensures Valid() && fresh(attrs.Repr()) && fresh(dirs.Repr()) && fresh(links.Repr()) && this.remote == remote
      ensures attrs.Ttl() == ofAttrs.ttl && dirs.Ttl() == ofDirs.ttl && links.Ttl() == ofLinks.ttl
      ensures attrs.cache.list.clock.reading == ofAttrs.reading && dirs.cache.list.clock.reading == ofDirs.reading
      ensures links.cache.list.clock.reading == ofLinks.reading
      ensures attrs.Count() == dirs.Count() == links.Count() == 0
      ensures attrs.paths == paths && attrs.bindings == map[] && dirs.bindings == map[] && links.bindings == map[]
      ensures Taken() == map[] && links.cache.View().Open() == map[]
    {
      hide FileCache.Valid, NoPrefixCollision, Config.Fits, Caches.Cache.View, State.Open;
      var a, d, l := NewFileCaches(ofAttrs, ofDirs, ofLinks, horizon, hashOf, paths);
      this.remote, attrs, dirs, links := remote, a, d, l;
    }

    // sftfs_cached_fetch_attr
    method FetchAttr(path: string) returns (hit: Option<A>)
      requires Valid() && path in attrs.paths
      modifies attrs.Repr()
      ensures Valid() && Repr() == old(Repr()) && attrs.Aged()
      ensures Within(attrs.bindings, old(attrs.bindings))
      ensures hit == if path in attrs.bindings then Some(attrs.bindings[path].data) else None
      ensures hit.Some? || old(attrs.bindings) != map[] ==> attrs.Count() > old(attrs.Count())
      ensures hit.Some? ==> attrs.bindings[path].stamp <= attrs.Now() <= attrs.bindings[path].stamp + attrs.Ttl()
      ensures attrs.bindings == LiveMap(old(attrs.bindings), attrs.Ttl(), attrs.Now())
    {
      hide FileCache.Valid, LiveMap, Within;
      ghost var m := attrs.bindings;
      hit := GetAttr(attrs, path);
      LiveWithin(m, attrs.Ttl(), attrs.Now(), {});
      attrs.BoundInThePast();
    }

    // The part of sftfs_cached_getattr that asks the remote.
    method Refetch(path: string) returns (r: Reply<A>)
      requires Valid() && path in attrs.paths
      modifies attrs.Repr()
      ensures Valid() && Grown() && attrs.Aged()
      ensures r == remote.lookup(remote.state, path)
      ensures if r.Found? then attrs.Count() > old(attrs.Count()) else attrs.bindings == old(attrs.bindings)
      ensures r.Found? ==>
        exists m :: Within(m, old(attrs.bindings)) && attrs.bindings == m[path := Binding(r.attr, attrs.Now())]
      ensures r.Found? ==> Stored(attrs.bindings, old(attrs.bindings), attrs.Ttl(), attrs.Now(), path, r.attr)
    {
      hide FileCache.Valid, LiveMap, Within, Stored;
      ghost var m := attrs.bindings;
      r := remote.Getattr(path);
      if r.Found? {
        var status;
        ghost var t;
        status, t := PutAttr(attrs, path, r.attr);
        LiveWithin(m, attrs.Ttl(), t, {});
        LiveStored(m, attrs.Ttl(), t, attrs.Now(), path, r.attr);
      }
    }

    /** sftfs_cached_getattr: on a coherent cache it says what the remote says; on one filled by
        earlier calls, what the remote said no longer than the time to live ago. */
    method Getattr(path: string, ghost history: seq<Instant<S>>) returns (r: Reply<A>)
      requires Valid() && path in attrs.paths
      modifies attrs.Repr()
      ensures Valid() && Grown() && attrs.Aged()
      ensures old(Coherent()) ==> Coherent() && r == remote.lookup(remote.state, path)
      ensures r.Failed? ==> r == remote.lookup(remote.state, path)
      ensures r.Found? || old(attrs.bindings) != map[] ==> attrs.Count() > old(attrs.Count())
      ensures r.Found? ==> path in attrs.bindings && attrs.bindings[path].data == r.attr
      ensures r.Found? && !(path in old(attrs.bindings) && attrs.bindings[path] == old(attrs.bindings)[path]) ==>
        attrs.bindings[path].stamp == attrs.Now()
      ensures Answered(remote.lookup, remote.state, old(attrs.bindings), attrs.Ttl(), old(attrs.Next()), attrs.Now(),
                       path, r)
      ensures Sourced(remote.lookup, remote.state, attrs.bindings, old(attrs.bindings))
      ensures Kept(attrs.bindings, old(attrs.bindings), attrs.Ttl(), attrs.Now())
      ensures Witnessed(remote.lookup, history, old(attrs.bindings)) ==>
        Witnessed(remote.lookup, history + [Instant(attrs.Now(), remote.state)], attrs.bindings)
      ensures Witnessed(remote.lookup, history, old(attrs.bindings)) && r.Found? ==>
        RecentlySo(remote.lookup, history + [Instant(attrs.Now(), remote.state)], path, r.attr, attrs.Ttl(),
          attrs.Now())
    {
      hide FileCache.Valid, Witnessed, WasSo, RecentlySo, LiveMap, KeptBut, Kept, Sourced, Stored, Expired;
      ghost var m, ttl, count := attrs.bindings, attrs.Ttl(), attrs.Count();
      var hit := FetchAttr(path);
      ClockShows(count);
      ghost var m1, t1 := attrs.bindings, attrs.Now();
      LiveKept(m, ttl, t1, t1, path);
      if hit.Some? {
        r := Found(hit.value);
        StillLive(m1[path].stamp, ttl, attrs.cache.list.clock.reading(count), t1);
        KeptToo(m1, m, ttl, t1, path);
        WithinSourced(remote.lookup, remote.state, m, m1);
      } else {
        r := Refetch(path);
        ghost var t2 := attrs.Now();
        LiveKept(m, ttl, t1, t2, path);
        if r.Found? {
          StoredOn(m, m1, attrs.bindings, ttl, t2, path, r.attr);
          StoredSourced(remote.lookup, remote.state, m, attrs.bindings, ttl, t2, path, r.attr);
          StoredKept(m, attrs.bindings, ttl, t2, path, r.attr);
        } else {
          KeptToo(m1, m, ttl, t2, path);
          WithinSourced(remote.lookup, remote.state, m, m1);
        }
      }
      ghost var now := Instant(attrs.Now(), remote.state);
      if Witnessed(remote.lookup, history, m) {
        if hit.Some? {
          WitnessedWithin(remote.lookup, history, now, m, m1);
          WitnessedAt(remote.lookup, history + [now], m1, path);
          HitRecent(remote.lookup, history + [now], path, m1[path], attrs.Ttl(), now.time);
        } else if r.Found? {
          ghost var m2 :| Within(m2, m1) && attrs.bindings == m2[path := Binding(r.attr, now.time)];
          WitnessedWithin(remote.lookup, history, now, m, m2);
          NowWitnessed(remote.lookup, history, now, m2, path, r.attr);
          MissRecent(remote.lookup, history, now, path, r.attr, attrs.Ttl());
        } else {
          WitnessedWithin(remote.lookup, history, now, m, m1);
        }
      }
    }

    // sftfs_cached_getattr where nothing but the caches is in play.
    method Stat(path: string) returns (r: Reply<A>)
      requires Valid() && path in attrs.paths
      modifies Repr()
      ensures Valid() && Grown() && remote.state == old(remote.state)
      ensures dirs.bindings == old(dirs.bindings) && Taken() == old(Taken())
      ensures dirs.Still() && attrs.Aged()
      ensures r.Found? || old(attrs.bindings) != map[] ==> attrs.Count() > old(attrs.Count())
      ensures r.Found? ==> path in attrs.bindings && attrs.bindings[path].data == r.attr
      ensures r.Found? && !(path in old(attrs.bindings) && attrs.bindings[path] == old(attrs.bindings)[path]) ==>
        attrs.bindings[path].stamp == attrs.Now()
      ensures old(Coherent()) ==> Coherent() && r == remote.lookup(remote.state, path)
      ensures Answered(remote.lookup, remote.state, old(attrs.bindings), attrs.Ttl(), old(attrs.Next()), attrs.Now(),
                       path, r)
      ensures Sourced(remote.lookup, remote.state, attrs.bindings, old(attrs.bindings))
      ensures Kept(attrs.bindings, old(attrs.bindings), attrs.Ttl(), attrs.Now())
    {
      hide FileCache.Valid, CoherentIn, Witnessed, RecentlySo, Answered, Sourced, Kept;
      r := Getattr(path, []);
    }

    /** sftfs_cached_store_attr */
    method StoreAttr(path: string, attr: A) returns (ok: bool)
      requires Valid() && path in attrs.paths
      modifies Repr()
      ensures Valid() && Grown() && ok
      ensures remote.state == old(remote.state) && dirs.bindings == old(dirs.bindings) && Taken() == old(Taken())
      ensures dirs.Still() && attrs.Aged()
      ensures Stored(attrs.bindings, old(attrs.bindings), attrs.Ttl(), attrs.Now(), path, attr)
    {
      hide FileCache.Valid, LiveMap, State.Open, Stored;
      ghost var m := attrs.bindings;
      var status;
      ghost var t;
      status, t := PutAttr(attrs, path, attr);
      LiveStored(m, attrs.Ttl(), t, attrs.Now(), path, attr);
      ok := status == FileOk;
    }

    // sftfs_cache_take_dir on the directory cache.
    method TakeDir(path: string) returns (dir: Ptr, text: string, ghost t: nat)
      requires Valid() && path in attrs.paths && dirs.Closed(path)
      modifies Repr()
      ensures Valid() && Grown() && dirs.Aged() && old(dirs.Now()) <= t <= dirs.Now()
      ensures attrs.Still()
      ensures remote.state == old(remote.state) && attrs.bindings == old(attrs.bindings)
      ensures dirs.bindings == LiveMap(old(dirs.bindings), dirs.Ttl(), dirs.Now()) - {path}
      ensures dir !in old(Taken()) && Taken() == old(Taken())[dir := File(path, text)]
      ensures path !in LiveMap(old(dirs.bindings), dirs.Ttl(), t) ==> text == ""
      ensures path in LiveMap(old(dirs.bindings), dirs.Ttl(), t) ==>
        path in old(dirs.bindings) && text == old(dirs.bindings)[path].data
    {
      hide FileCache.Valid, LiveMap, State.Open, FileCache.Closed;
      dir, text, t := TakeListing(dirs, path);
    }

    /** sftfs_cache_peek_dir: the characters that the handle points to. */
    method PeekDir(path: string) returns (text: Option<string>)
      requires Valid() && path in attrs.paths
      modifies Repr()
      ensures Valid() && Repr() == old(Repr()) && dirs.Aged()
      ensures attrs.Still()
      ensures remote.state == old(remote.state) && attrs.bindings == old(attrs.bindings) && Taken() == old(Taken())
      ensures dirs.bindings == LiveMap(old(dirs.bindings), dirs.Ttl(), dirs.Now())
      ensures text == if path in dirs.bindings then Some(dirs.bindings[path].data) else None
    {
      hide FileCache.Valid, LiveMap, State.Open;
      text := dirs.PeekFile(path);
    }

    // sftfs_cache_add_dir_entry on a taken directory.
    method AddDirEntry(dir: Ptr, name: string)
      requires Valid() && dir in Taken()
      modifies Repr()
      ensures Valid() && Repr() == old(Repr()) && dir in old(Taken()) && dirs.Still()
      ensures attrs.Still()
      ensures remote.state == old(remote.state) && attrs.bindings == old(attrs.bindings)
      ensures dirs.bindings == old(dirs.bindings)
      ensures Taken() == old(Taken())[dir := File(old(Taken())[dir].path, old(Taken())[dir].data + name + [NUL])]
    {
      hide FileCache.Valid;
      dirs.SetData(dir, dirs.cache.body[dir].data + name + [NUL]);
    }

    /** sftfs_cache_give_dir */
    method GiveDir(path: string, dir: Ptr) returns (ghost t: nat)
      requires Valid() && dir in Taken() && Taken()[dir].path == path
      modifies Repr()
      ensures Valid() && Repr() == old(Repr()) && dir in old(Taken())
      ensures dirs.Aged() && old(dirs.Now()) <= t <= dirs.Now()
      ensures attrs.Still()
      ensures remote.state == old(remote.state) && attrs.bindings == old(attrs.bindings)
      ensures Taken() == old(Taken()) - {dir}
      ensures dirs.bindings ==
        LiveMap(old(dirs.bindings), dirs.Ttl(), t)[path := Binding(old(Taken())[dir].data, dirs.Now())]
    {
      hide FileCache.Valid, LiveMap, State.Open;
      var status;
      status, t := dirs.GiveFile(path, dir);
    }

    /** sftfs_cache_drop_dir */
    method DropDir(path: string, dir: Ptr) returns (ghost t: nat)
      requires Valid() && dir in Taken() && Taken()[dir].path == path
      modifies Repr()
      ensures Valid() && Repr() == old(Repr()) && dir in old(Taken())
      ensures dirs.Aged() && old(dirs.Now()) <= t <= dirs.Now()
      ensures attrs.Still()
      ensures remote.state == old(remote.state) && attrs.bindings == old(attrs.bindings)
      ensures Taken() == old(Taken()) - {dir}
      ensures dirs.bindings == LiveMap(old(dirs.bindings), dirs.Ttl(), t)
    {
      hide FileCache.Valid, LiveMap, State.Open;
      var status := dirs.DropFile(path, dir);
      t := dirs.Now();
    }

    /** sftfs_cached_inval_all */
    method InvalAll(path: string)
      requires Valid()
      modifies Repr()
      ensures Valid() && Repr() == old(Repr()) && remote.state == old(remote.state)
      ensures Taken() == old(Taken())
      ensures attrs.Aged() && dirs.Aged() && links.Aged()
      ensures Purged(attrs.bindings, old(attrs.bindings), attrs.Ttl(), attrs.Now(), path, path in attrs.paths)
      ensures Purged(dirs.bindings, old(dirs.bindings), dirs.Ttl(), dirs.Now(), path, path in attrs.paths)
      ensures Purged(links.bindings, old(links.bindings), links.Ttl(), links.Now(), path, path in attrs.paths)
    {
      hide FileCache.Valid, LiveMap, Purged, State.Open, Caches.Cache.View;
      Purge(attrs, path);
      Purge(dirs, path);
      Purge(links, path);
    }

    /** sftfs_cached_inval_attr */
    method InvalAttr(path: string)
      requires Valid()
      modifies Repr()
      ensures Valid() && Repr() == old(Repr()) && remote.state == old(remote.state) && attrs.Aged()
      ensures Taken() == old(Taken()) && dirs.Still()
      ensures dirs.bindings == old(dirs.bindings) && links.bindings == old(links.bindings)
      ensures Purged(attrs.bindings, old(attrs.bindings), attrs.Ttl(), attrs.Now(), path, path in attrs.paths)
    {
      hide FileCache.Valid, LiveMap, Purged;
      Purge(attrs, path);
    }

    /** sftfs_cached_inval_all_dir: the path itself goes from all three caches. Its parent does not. */
    method InvalAllDir(path: string)
      requires Valid() && path in attrs.paths && Absolute(path)
      modifies Repr()
      ensures Valid() && Repr() == old(Repr()) && remote.state == old(remote.state) && attrs.Aged()
      ensures Taken() == old(Taken()) && dirs.Aged()
      ensures PurgedBoth(attrs.bindings, old(attrs.bindings), attrs.Ttl(), attrs.Now(), path, CutTooShort(path),
                CutKnown(path, attrs.paths))
      ensures PurgedBoth(dirs.bindings, old(dirs.bindings), dirs.Ttl(), dirs.Now(), path, CutTooShort(path),
                CutKnown(path, attrs.paths))
      ensures PurgedBoth(links.bindings, old(links.bindings), links.Ttl(), links.Now(), path, CutTooShort(path),
                CutKnown(path, attrs.paths))
      ensures ParentOf(path) in LiveMap(old(dirs.bindings), dirs.Ttl(), dirs.Now()) ==>
        (ParentOf(path) in dirs.bindings <==> path != "/")
    {
      hide CachedEndpoint.Valid, CachedEndpoint.Repr, LiveMap, PurgedBoth, Purged;
      ghost var m1, m2, m3 := attrs.bindings, dirs.bindings, links.bindings;
      InvalAll(path);
      ghost var n1, n2, n3 := attrs.bindings, dirs.bindings, links.bindings;
      ghost var t1, t2, t3 := attrs.Now(), dirs.Now(), links.Now();
      ReprAllocated();
      var sep := FindLastSeparator(path);
      if sep == 0 {
        assert CutTooShort(path) == "" && !CutKnown(path, attrs.paths);
        PurgedFirst(m1, n1, attrs.Ttl(), t1, path, "");
        PurgedFirst(m2, n2, dirs.Ttl(), t2, path, "");
        PurgedFirst(m3, n3, links.Ttl(), t3, path, "");
      } else {
        InvalAll(path[..sep - 1]);
        ghost var known := path[..sep - 1] in attrs.paths;
        PurgedSecond(m1, n1, attrs.bindings, attrs.Ttl(), t1, attrs.Now(), path, CutTooShort(path), known);
        PurgedSecond(m2, n2, dirs.bindings, dirs.Ttl(), t2, dirs.Now(), path, CutTooShort(path), known);
        PurgedSecond(m3, n3, links.bindings, links.Ttl(), t3, links.Now(), path, CutTooShort(path), known);
      }
      ParentKept(m2, dirs.bindings, dirs.Ttl(), dirs.Now(), path, CutKnown(path, attrs.paths));
    }

    // The operation at the remote, which leaves the caches alone.
    method ApplyAtRemote(op: Op) returns (rc: int)
      requires Valid()
      modifies Repr()
      ensures Valid() && Repr() == old(Repr()) && (remote.state, rc) == remote.apply(old(remote.state), op)
      ensures attrs.bindings == old(attrs.bindings) && attrs.Still()
      ensures dirs.bindings == old(dirs.bindings) && dirs.Still() && Taken() == old(Taken())
      ensures links.bindings == old(links.bindings)
    {
      hide FileCache.Valid;
      rc := remote.Apply(op);
    }

    // What is forgotten once an operation has taken effect.
    method ForgetAfter(op: Op)
      requires Valid() && op.path in attrs.paths && Absolute(op.path)
      modifies Repr()
      ensures Valid() && Repr() == old(Repr()) && remote.state == old(remote.state) && attrs.Aged() && dirs.Aged()
      ensures Taken() == old(Taken()) && Within(attrs.bindings, old(attrs.bindings))
      ensures Within(dirs.bindings, old(dirs.bindings)) && op.path !in attrs.bindings
      ensures op.OnDirectory() <==> op.Mkdir? || op.Unlink? || op.Rmdir? || op.Symlink?
      ensures op.OnDirectory() ==> op.path !in dirs.bindings && op.path !in links.bindings
      ensures op.OnDirectory() && CutKnown(op.path, attrs.paths) ==>
        var base := CutTooShort(op.path);
        base !in attrs.bindings && base !in dirs.bindings && base !in links.bindings
      ensures !op.OnDirectory() ==> dirs.bindings == old(dirs.bindings) && links.bindings == old(links.bindings)
      ensures forall p {:trigger p in attrs.bindings} ::
        && p in old(attrs.bindings) && attrs.Now() <= old(attrs.bindings)[p].stamp + attrs.Ttl()
        && p != op.path && !(op.OnDirectory() && TakenForCut(p, op.path, attrs.paths))
        ==> p in attrs.bindings && attrs.bindings[p] == old(attrs.bindings)[p]
      ensures forall p {:trigger p in dirs.bindings} ::
        && p in old(dirs.bindings) && dirs.Now() <= old(dirs.bindings)[p].stamp + dirs.Ttl()
        && p != op.path && !TakenForCut(p, op.path, attrs.paths)
        ==> p in dirs.bindings && dirs.bindings[p] == old(dirs.bindings)[p]
      ensures !op.OnDirectory() ==>
        Purged(attrs.bindings, old(attrs.bindings), attrs.Ttl(), attrs.Now(), op.path, true)
      ensures op.OnDirectory() ==>
        PurgedBoth(attrs.bindings, old(attrs.bindings), attrs.Ttl(), attrs.Now(), op.path, CutTooShort(op.path),
          CutKnown(op.path, attrs.paths))
      ensures op.OnDirectory() ==>
        PurgedBoth(dirs.bindings, old(dirs.bindings), dirs.Ttl(), dirs.Now(), op.path, CutTooShort(op.path),
          CutKnown(op.path, attrs.paths))
      ensures op.OnDirectory() ==>
        PurgedBoth(links.bindings, old(links.bindings), links.Ttl(), links.Now(), op.path, CutTooShort(op.path),
          CutKnown(op.path, attrs.paths))
    {
      hide CachedEndpoint.Valid, CachedEndpoint.Repr, CachedEndpoint.Taken, LiveMap, PurgedBoth, Purged;
      hide LastSeparator, CutTooShort, CutKnown;
      ghost var m, d, l := attrs.bindings, dirs.bindings, links.bindings;
      match op {
        case Mkdir(_, _) => InvalAllDir(op.path);
        case Unlink(_) => InvalAllDir(op.path);
        case Rmdir(_) => InvalAllDir(op.path);
        case Symlink(_, _) => InvalAllDir(op.path);
        case Chmod(_, _) => InvalAttr(op.path);
        case Chown(_, _, _) => InvalAttr(op.path);
        case Utimens(_, _, _) => InvalAttr(op.path);
      }
      AfterChange(m, attrs.bindings, attrs.Ttl(), attrs.Now(), op.path);
      if op.OnDirectory() {
        AfterChange(d, dirs.bindings, dirs.Ttl(), dirs.Now(), op.path);
        AfterChange(l, links.bindings, links.Ttl(), links.Now(), op.path);
      }
      ghost var base, known := CutTooShort(op.path), CutKnown(op.path, attrs.paths);
      OthersLeft(m, attrs.bindings, attrs.Ttl(), attrs.Now(), op.path, base, known, op.OnDirectory());
      OthersLeft(d, dirs.bindings, dirs.Ttl(), dirs.Now(), op.path, base, known, op.OnDirectory());
      OthersLeft(l, links.bindings, links.Ttl(), links.Now(), op.path, base, known, op.OnDirectory());
    }

    /** sftfs_cached_mkdir, _unlink, _rmdir, _symlink, _chmod, _chown and _utimens */
    method Change(op: Op, ghost history: seq<Instant<S>>) returns (rc: int)
      requires Valid() && op.path in attrs.paths && Absolute(op.path)
      modifies Repr()
      ensures Valid() && Repr() == old(Repr()) && attrs.Aged() && dirs.Aged()
      ensures (remote.state, rc) == remote.apply(old(remote.state), op)
      ensures Taken() == old(Taken()) && Within(dirs.bindings, old(dirs.bindings))
      ensures rc != 0 ==> attrs.bindings == old(attrs.bindings)
      ensures rc != 0 || !op.OnDirectory() ==>
        dirs.bindings == old(dirs.bindings) && links.bindings == old(links.bindings)
      ensures rc == 0 ==> op.path !in attrs.bindings
      ensures rc == 0 && (op.Mkdir? || op.Unlink? || op.Rmdir? || op.Symlink?) ==>
        op.path !in dirs.bindings && op.path !in links.bindings
      ensures rc == 0 && (op.Mkdir? || op.Unlink? || op.Rmdir? || op.Symlink?) && 0 < LastSeparator(op.path) ==>
        var base := CutTooShort(op.path);
        base in attrs.paths ==> base !in attrs.bindings && base !in dirs.bindings && base !in links.bindings
      ensures op.Chmod? || op.Chown? || op.Utimens? ==>
        dirs.bindings == old(dirs.bindings) && links.bindings == old(links.bindings)
      ensures forall p {:trigger p in attrs.bindings} ::
        && p in old(attrs.bindings) && attrs.Now() <= old(attrs.bindings)[p].stamp + attrs.Ttl()
        && p != op.path && (op.Chmod? || op.Chown? || op.Utimens? ||
             if 0 < LastSeparator(op.path) && CutTooShort(op.path) in attrs.paths then p != CutTooShort(op.path)
             else !(p <= CutTooShort(op.path)))
        ==> p in attrs.bindings && attrs.bindings[p] == old(attrs.bindings)[p]
      ensures forall p {:trigger p in dirs.bindings} ::
        && p in old(dirs.bindings) && dirs.Now() <= old(dirs.bindings)[p].stamp + dirs.Ttl()
        && p != op.path &&
           (if 0 < LastSeparator(op.path) && CutTooShort(op.path) in attrs.paths then p != CutTooShort(op.path)
            else !(p <= CutTooShort(op.path)))
        ==> p in dirs.bindings && dirs.bindings[p] == old(dirs.bindings)[p]
      ensures rc == 0 && !op.OnDirectory() ==>
        Purged(attrs.bindings, old(attrs.bindings), attrs.Ttl(), attrs.Now(), op.path, true)
      ensures rc == 0 && op.OnDirectory() ==>
        PurgedBoth(attrs.bindings, old(attrs.bindings), attrs.Ttl(), attrs.Now(), op.path, CutTooShort(op.path),
          CutKnown(op.path, attrs.paths))
      ensures rc == 0 && op.OnDirectory() ==>
        PurgedBoth(dirs.bindings, old(dirs.bindings), dirs.Ttl(), dirs.Now(), op.path, CutTooShort(op.path),
          CutKnown(op.path, attrs.paths))
      ensures rc == 0 && op.OnDirectory() ==>
        PurgedBoth(links.bindings, old(links.bindings), links.Ttl(), links.Now(), op.path, CutTooShort(op.path),
          CutKnown(op.path, attrs.paths))
      ensures OwnPathOnly(remote.lookup, remote.apply, attrs.paths) && old(Coherent()) ==> Coherent()
      ensures old(Coherent()) ==>
        (Coherent() <==> SameAt(remote.lookup, old(remote.state), remote.state, attrs.bindings))
      ensures var twice := SlashBlind(remote.lookup) && OwnObjectOnly(remote.lookup, remote.apply, attrs.paths);
        twice && Plain(op.path) && old(Coherent()) ==>
          (Coherent() <==> RootHarmless(remote.lookup, remote.apply, old(remote.state), op, attrs.bindings))
      ensures OwnAndParentOnly(remote.lookup, remote.apply, attrs.paths) && old(Coherent()) ==>
        (Coherent() <==> ParentHarmless(remote.lookup, remote.apply, old(remote.state), op, attrs.bindings))
      ensures Witnessed(remote.lookup, history, old(attrs.bindings)) ==>
        Witnessed(remote.lookup, history + [Instant(attrs.Now(), remote.state)], attrs.bindings)
    {
      hide CachedEndpoint.Valid, CachedEndpoint.Repr, CachedEndpoint.Taken, LiveMap, PurgedBoth, Purged, Witnessed;
      hide OwnPathOnly, CoherentIn, SameAt, SlashBlind, OwnObjectOnly, RootHarmless, Plain, OwnAndParentOnly;
      hide ParentHarmless, LastSeparator, CutTooShort, Op.OnDirectory;
      BoundInUse();
      ghost var m, s := attrs.bindings, remote.state;
      rc := ApplyAtRemote(op);
      if rc == 0 {
        ForgetAfter(op);
      }
      if CoherentIn(remote.lookup, s, m) {
        CoherentAfter(remote.lookup, remote.apply, attrs.paths, s, op, m, attrs.bindings);
      }
      if Witnessed(remote.lookup, history, m) {
        WitnessedWithin(remote.lookup, history, Instant(attrs.Now(), remote.state), m, attrs.bindings);
      }
    }

    /** One request of the file system. */
    method Serve(request: Request, ghost history: seq<Instant<S>>) returns (answer: Answer<A>)
      requires Valid() && request.Path() in attrs.paths && Absolute(request.Path())
      modifies Repr()
      ensures Valid() && Grown() && attrs.Aged() && (answer.FoundOne() ==> attrs.Count() > old(attrs.Count()))
      ensures Taken() == old(Taken()) && Within(dirs.bindings, old(dirs.bindings))
      ensures remote.state == StateAfter(remote.apply, old(remote.state), request)
      ensures request.Change? ==>
        var after := remote.apply(old(remote.state), request.op); remote.state == after.0 && answer == Code(after.1)
      ensures request.Stat? ==> remote.state == old(remote.state) && answer.Attr?
      ensures request.Stat? && (old(Coherent()) || answer.reply.Failed?) ==>
        answer == Attr(remote.lookup(old(remote.state), request.path))
      ensures request.Change? && request.op.OnDirectory() && remote.apply(old(remote.state), request.op).1 == 0 ==>
        request.op.path !in dirs.bindings
      ensures OwnPathOnly(remote.lookup, remote.apply, attrs.paths) && old(Coherent()) ==>
        Coherent() && answer == BareAnswer(remote.lookup, remote.apply, old(remote.state), request)
      ensures Witnessed(remote.lookup, history, old(attrs.bindings)) ==>
        Witnessed(remote.lookup, history + [Instant(attrs.Now(), remote.state)], attrs.bindings)
      ensures Witnessed(remote.lookup, history, old(attrs.bindings)) ==>
        Timely(remote.lookup, remote.apply, history + [Instant(attrs.Now(), remote.state)], old(remote.state), request,
          answer, attrs.Ttl())
    {
      hide FileCache.Valid, Witnessed, OwnPathOnly, CoherentIn, RecentlySo;
      if request.Stat? {
        var r := Getattr(request.path, history);
        answer := Attr(r);
      } else {
        var rc := Change(request.op, history);
        answer := Code(rc);
      }
    }

    /** A run with nobody else at work on the remote: the cache cannot be told from the bare remote. */
    method RunAlone(requests: seq<Request>) returns (answers: seq<Answer<A>>)
      requires Valid() && Coherent() && OwnPathOnly(remote.lookup, remote.apply, attrs.paths)
      requires AllKnown(requests, attrs.paths)
      modifies Repr()
      ensures Valid() && Coherent()
      ensures answers == BareRun(remote.lookup, remote.apply, old(remote.state), requests)
      ensures remote.state == StateAfterAll(remote.apply, old(remote.state), requests)
    {
      hide CachedEndpoint.Valid, CachedEndpoint.Repr, CachedEndpoint.Taken, Witnessed, Timely, OwnPathOnly, CoherentIn;
      hide FileCache.Aged, FileCache.Count, Within, BareRun, StateAfterAll, StateAfter, BareAnswer;
      ghost var s0 := remote.state;
      answers := [];
      var i := 0;
      while i < |requests|
        invariant 0 <= i <= |requests| && Valid() && Coherent() && Grown()
        invariant answers + BareRun(remote.lookup, remote.apply, remote.state, requests[i..]) ==
          BareRun(remote.lookup, remote.apply, s0, requests)
        invariant StateAfterAll(remote.apply, remote.state, requests[i..]) == StateAfterAll(remote.apply, s0, requests)
      {
        RunOnward(remote.lookup, remote.apply, remote.state, requests, i);
        var answer := Serve(requests[i], []);
        answers := answers + [answer];
        i := i + 1;
      }
      RunOver(remote.lookup, remote.apply, remote.state, requests[i..]);
    }

    // What others do on the remote leaves the caches as they are.
    method LetOthersWork(writer: S -> S)
      requires Valid()
      modifies Repr()
      ensures Valid() && Repr() == old(Repr()) && remote.state == writer(old(remote.state))
      ensures attrs.bindings == old(attrs.bindings) && attrs.Still()
      ensures dirs.bindings == old(dirs.bindings) && dirs.Still() && Taken() == old(Taken())
      ensures links.bindings == old(links.bindings)
    {
      hide FileCache.Valid;
      remote.Disturb(writer);
    }

    /** A run in which others change the remote at will between the requests: no answer is older than
        the time to live. `seen` are the instants of the answers and `counts` how often the clock had
        been read by then. */
    method RunShared(requests: seq<Request>, outside: seq<S -> S>)
        returns (answers: seq<Answer<A>>, ghost seen: seq<Instant<S>>, ghost counts: seq<nat>)
      requires Valid() && attrs.bindings == map[] && AllKnown(requests, attrs.paths) && |outside| == |requests|
      modifies Repr()
      ensures Valid() && |answers| == |seen| == |counts| == |requests|
      ensures NeverStale(remote.lookup, remote.apply, old(remote.state), requests, outside, seen, answers, attrs.Ttl())
      ensures OnTheClock(attrs.cache.list.clock, old(attrs.Count()), attrs.Count(), counts, seen, answers)
    {
      hide CachedEndpoint.Valid, CachedEndpoint.Repr, Witnessed, NeverStale, Timely, OwnPathOnly, CoherentIn;
      hide OnTheClock;
      ghost var s0, start := remote.state, attrs.Count();
      answers, seen, counts := [], [], [];
      var i := 0;
      NothingWitnessed(remote.lookup, attrs.bindings);
      NothingCounted(attrs.cache.list.clock, start, seen, answers);
      while i < |requests|
        invariant 0 <= i <= |requests| && Valid() && Grown() && |answers| == |seen| == |counts| == i
        invariant remote.state == StateAt(remote.apply, s0, requests, outside, i)
        invariant Witnessed(remote.lookup, seen, attrs.bindings)
        invariant start <= attrs.Count() && (i > 0 ==> seen[i - 1].time <= attrs.Now())
        invariant NeverStale(remote.lookup, remote.apply, s0, requests, outside, seen, answers, attrs.Ttl())
        invariant OnTheClock(attrs.cache.list.clock, start, attrs.Count(), counts, seen, answers)
      {
        LetOthersWork(outside[i]);
        ghost var count := attrs.Count();
        var answer := Serve(requests[i], seen);
        ghost var now := Instant(attrs.Now(), remote.state);
        OneMoreAnswer(remote.lookup, remote.apply, s0, requests, outside, seen, answers, attrs.Ttl(), now, answer);
        ClockShows(count);
        OneMoreCounted(attrs.cache.list.clock, start, count, attrs.Count(), counts, seen, answers, now, answer);
        seen := seen + [now];
        counts := counts + [attrs.Count()];
        answers := answers + [answer];
        i := i + 1;
      }
    }
  }

  // What inval_all_dir has left of what was cached for the parent.
  lemma ParentStays<A>(m: map<string, Binding<A>>, m': map<string, Binding<A>>, ttl: nat, t: nat, path: string)
    requires Absolute(path) && path != "/" && exists known :: PurgedBoth(m', m, ttl, t, path, CutTooShort(path), known)
    requires ParentOf(path) in m && !Expired(m[ParentOf(path)].stamp, ttl, t)
    ensures ParentOf(path) in m' && m'[ParentOf(path)] == m[ParentOf(path)]
  {
    ParentMissed(path);
    assert ParentOf(path) in LiveMap(m, ttl, t);
  }

  /** Making or removing an entry of a directory that getattr was asked about: if that changes the
      directory's own attributes, getattr goes on with the old ones until they expire. */
  method StaleParent<S(!new), A(0, !new)>(endp: CachedEndpoint<S, A>, op: Op, parent: string)
      returns (before: Reply<A>, rc: int, after: Reply<A>)
    requires endp.Valid() && endp.attrs.bindings == map[] && op.path in endp.attrs.paths && parent in endp.attrs.paths
    requires op.OnDirectory() && Absolute(op.path) && op.path != "/" && parent == ParentOf(op.path)
    requires endp.remote.apply(endp.remote.state, op).1 == 0
    requires endp.remote.lookup(endp.remote.state, parent).Found?
    modifies endp.Repr()
    ensures (endp.remote.state, rc) == endp.remote.apply(old(endp.remote.state), op)
    ensures before == endp.remote.lookup(old(endp.remote.state), parent)
    ensures endp.attrs.Now() <= old(endp.attrs.Now()) + endp.attrs.Ttl() ==> after == before
  {
    hide CachedEndpoint.Valid, CachedEndpoint.Repr, CachedEndpoint.Taken, Sourced, Kept, PurgedBoth, Within, CoherentIn;
    hide SameAt, SlashBlind, OwnObjectOnly, OwnPathOnly, RootHarmless, Witnessed;
    ghost var start, ttl := endp.attrs.Now(), endp.attrs.Ttl();
    before := endp.Stat(parent);
    ghost var m := endp.attrs.bindings;
    rc := endp.Change(op, []);
    if endp.attrs.Now() <= start + ttl {
      ParentStays(m, endp.attrs.bindings, ttl, endp.attrs.Now(), op.path);
    }
    ghost var count := endp.attrs.Count();
    after := endp.Stat(parent);
    endp.ClockShows(count);
  }
}
