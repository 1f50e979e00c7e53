/** Addresses, and the small facts about sequences of them that chains and lists rest on. */
module Memory {

  /** A C pointer. Each structure keeps the fields of the blocks it owns in maps from address to
      value, one map a field; an address outside the domain is not allocated. */
  type Ptr = nat

  const NULL: Ptr := 0

  datatype Option<+T> = None | Some(value: T)

  ghost predicate Distinct<T>(s: seq<T>) {
    forall i, j :: 0 <= i < j < |s| ==> s[i] != s[j]
  }

  lemma NoneTwice<T>()
    ensures Distinct<T>([])
  {
  }

  ghost function IndexOf<T>(s: seq<T>, x: T): (k: nat)
    requires x in s
    ensures k < |s| && s[k] == x
  {
    var k :| 0 <= k < |s| && s[k] == x; k
  }

  /** `s` without its element at position `k`. */
  function Without<T>(s: seq<T>, k: nat): (r: seq<T>)
    requires k < |s|
    ensures |r| == |s| - 1
  {
    s[..k] + s[k + 1..]
  }

  /** The element at position `k`, or NULL past the end. */
  function Nth(s: seq<Ptr>, k: nat): Ptr {
    if k < |s| then s[k] else NULL
  }

  function SetOf<T>(s: seq<T>): set<T> {
    set e | e in s
  }

  lemma WithoutParts<T>(s: seq<T>, k: nat)
    requires k < |s|
    ensures Without(s, k) == s[..k] + s[k + 1..]
    ensures k == 0 ==> Without(s, k) == s[1..]
  {
  }

  lemma WithoutMembers<T>(s: seq<T>, k: nat)
    requires k < |s| && Distinct(s)
    ensures forall e :: e in Without(s, k) <==> e in s && e != s[k]
    ensures Distinct(Without(s, k))
  {
    var d := Without(s, k);
    forall e ensures e in d <==> e in s && e != s[k] {
      if e in s && e != s[k] {
        var j :| 0 <= j < |s| && s[j] == e;
        assert d[if j < k then j else j - 1] == e;
      }
    }
  }

  lemma OthersDiffer<T>(s: seq<T>, k: nat)
    requires Distinct(s) && k < |s|
    ensures forall j :: 0 <= j < |s| && j != k ==> s[j] != s[k]
  {
  }

  /** `next` leads from each element of `s` to the one after it, and from the last to NULL. */
  ghost predicate Follows(s: seq<Ptr>, next: map<Ptr, Ptr>) {
    forall k :: 0 <= k < |s| ==> s[k] in next && next[s[k]] == Nth(s, k + 1)
  }

  lemma KeyMoved<V>(m: map<Ptr, V>, n: map<Ptr, V>, p: Ptr)
    requires p in m && p !in n
    ensures (m - {p}) + n[p := m[p]] == m + n
  {
  }

  lemma KeysDropped<V>(m: map<Ptr, V>, gone: set<Ptr>, more: set<Ptr>)
    ensures (m - gone) - more == m - (gone + more)
  {
  }

  lemma UpdatedTwice<T>(s: seq<T>, i: nat, x: T, y: T)
    requires i < |s|
    ensures s[i := x][i := y] == s[i := y]
  {
  }

  /** `s` without the `n` elements from position `i` on. */
  function Cut<T>(s: seq<T>, i: nat, n: nat): seq<T>
    requires i + n <= |s|
  {
    s[..i] + s[i + n..]
  }

  // The elements from position `i` on can be cut one at a time.
  lemma CutOneMore<T>(s: seq<T>, i: nat, n: nat)
    requires i + n < |s|
    ensures |Cut(s, i, n)| == |s| - n && Cut(s, i, n)[i] == s[i + n]
    ensures Without(Cut(s, i, n), i) == Cut(s, i, n + 1)
    ensures SetOf(s[i..i + n + 1]) == SetOf(s[i..i + n]) + {s[i + n]}
  {
    assert s[i..i + n + 1] == s[i..i + n] + [s[i + n]];
  }

  lemma CutEnds<T>(s: seq<T>, i: nat)
    requires i <= |s|
    ensures Cut(s, i, 0) == s && Cut(s, i, |s| - i) == s[..i]
    ensures SetOf(s[i..i]) == {} && s[i..i + (|s| - i)] == s[i..]
  {
  }

  lemma CutPrefix<T>(s: seq<T>, i: nat, n: nat)
    requires i + n <= |s|
    ensures |Cut(s, i, n)| == |s| - n && Cut(s, i, n)[..i] == s[..i]
  {
  }

  /** `m` without the `n` elements of `s` from position `i` on. */
  ghost function Dropped<V>(m: map<Ptr, V>, s: seq<Ptr>, i: nat, n: nat): map<Ptr, V>
    requires i + n <= |s|
  {
    m - SetOf(s[i..i + n])
  }

  lemma DroppedOneMore<V>(m: map<Ptr, V>, s: seq<Ptr>, i: nat, n: nat)
    requires i + n < |s|
    ensures Dropped(m, s, i, n) - {s[i + n]} == Dropped(m, s, i, n + 1)
  {
    CutOneMore(s, i, n);
  }

  lemma DroppedEnds<V>(m: map<Ptr, V>, s: seq<Ptr>, i: nat)
    requires i <= |s|
    ensures Dropped(m, s, i, 0) == m && Dropped(m, s, i, |s| - i) == m - SetOf(s[i..])
  {
    CutEnds(s, i);
  }

  /** malloc, which here never fails: some address that is in use nowhere. */
  method Malloc(inUse: set<Ptr>) returns (p: Ptr)
    ensures p != NULL && p !in inUse
  {
    UnusedExists(inUse);
    p :| p != NULL && p !in inUse;
  }

  lemma {:induction false} Bounded(s: set<Ptr>) returns (bound: nat)
    ensures forall p :: p in s ==> p < bound
  {
    if s == {} {
      bound := 0;
    } else {
      var p :| p in s;
      var rest := Bounded(s - {p});
      bound := rest + p + 1;
      assert forall q :: q in s ==> q == p || q in s - {p};
    }
  }

  lemma UnusedExists(s: set<Ptr>)
    ensures exists p: Ptr :: p != NULL && p !in s
  {
    var bound := Bounded(s);
    assert bound + 1 !in s;
  }
}
