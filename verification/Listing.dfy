/** How a directory listing is kept (src/cache/dir.c): the names one after the other in a growable
    string, each of them closed by a NUL. */
module Listings {
  import opened Memory
  import opened Strs

  ghost function Encode(names: seq<string>): (text: seq<char>)
    ensures names != [] ==> |text| > 0 && text[|text| - 1] == NUL
  {
    if names == [] then [] else Encode(names[..|names| - 1]) + names[|names| - 1] + [NUL]
  }

  /** Where the name at position `k` starts. */
  ghost function StartOf(names: seq<string>, k: nat): nat
    requires k <= |names|
  {
    |Encode(names[..k])|
  }

  /** File names hold no NUL. */
  ghost predicate NulFree(names: seq<string>) {
    forall i :: 0 <= i < |names| ==> NUL !in names[i]
  }

  /** The position of the first name that is empty; |names| if there is none. */
  ghost function FirstEmpty(names: seq<string>): (k: nat)
    ensures k <= |names| && forall i :: 0 <= i < k ==> names[i] != ""
    ensures k < |names| ==> names[k] == ""
  {
    if names == [] then 0
    else var k := FirstEmpty(names[..|names| - 1]);
      if k < |names| - 1 || names[|names| - 1] == "" then k else |names|
  }

  lemma {:induction false} EncodeAt(names: seq<string>, k: nat)
    requires k < |names|
    ensures StartOf(names, k + 1) == StartOf(names, k) + |names[k]| + 1 <= |Encode(names)|
    ensures Encode(names)[StartOf(names, k)..StartOf(names, k + 1)] == names[k] + [NUL]
  {
    assert names[..k + 1][..k] == names[..k];
    if k == |names| - 1 {
      assert names[..k + 1] == names;
    } else {
      var front := names[..|names| - 1];
      EncodeAt(front, k);
      assert front[..k] == names[..k] && front[..k + 1] == names[..k + 1];
      var i, j := StartOf(names, k), StartOf(names, k + 1);
      assert Encode(names)[i..j] == Encode(front)[i..j];
    }
  }

  lemma AtEnd(names: seq<string>)
    ensures StartOf(names, |names|) == |Encode(names)|
  {
    assert names[..|names|] == names;
  }

  // The characters of the name at position `k`.
  lemma NameAt(names: seq<string>, k: nat)
    requires k < |names|
    ensures StartOf(names, k + 1) == StartOf(names, k) + |names[k]| + 1 <= |Encode(names)|
    ensures forall j {:trigger names[k][j]} :: 0 <= j < |names[k]| ==>
      Encode(names)[StartOf(names, k) + j] == names[k][j]
    ensures Encode(names)[StartOf(names, k) + |names[k]|] == NUL
  {
    hide Encode, StartOf;
    EncodeAt(names, k);
    Slice(Encode(names), StartOf(names, k), names[k]);
  }

  lemma Slice(text: seq<char>, i: nat, name: string)
    requires i + |name| + 1 <= |text| && text[i..i + |name| + 1] == name + [NUL]
    ensures forall j {:trigger name[j]} :: 0 <= j < |name| ==> text[i + j] == name[j]
    ensures text[i + |name|] == NUL
  {
    var s := text[i..i + |name| + 1];
    assert forall j :: 0 <= j < |s| ==> text[i + j] == s[j];
    assert s[|name|] == NUL;
    assert forall j :: 0 <= j < |name| ==> s[j] == name[j];
  }

  /** Two sequences of names that are not empty and hold no NUL are encoded differently. */
  lemma {:induction false} EncodeInjective(names: seq<string>, names': seq<string>)
    requires NulFree(names) && NulFree(names') && Encode(names) == Encode(names')
    ensures names == names'
  {
    if names != [] && names' != [] {
      var front, last := names[..|names| - 1], names[|names| - 1];
      var front', last' := names'[..|names'| - 1], names'[|names'| - 1];
      var a, b := Encode(front) + last, Encode(front') + last';
      assert Encode(names)[..|a|] == a && Encode(names')[..|b|] == b;
      SameLast(Encode(front), last, Encode(front'), last');
      EncodeInjective(front, front');
    }
  }

  lemma SameLast(a: seq<char>, x: string, a': seq<char>, x': string)
    requires NUL !in x && NUL !in x' && a + x == a' + x'
    requires (a == [] || a[|a| - 1] == NUL) && (a' == [] || a'[|a'| - 1] == NUL)
    ensures a == a' && x == x'
  {
    NoLonger(a, x, a', x');
    NoLonger(a', x', a, x);
    var t := a + x;
    assert a == t[..|a|] && a' == t[..|a|];
    assert x == t[|a|..] && x' == t[|a|..];
  }

  lemma NoLonger(a: seq<char>, x: string, a': seq<char>, x': string)
    requires NUL !in x && a + x == a' + x' && (a' == [] || a'[|a'| - 1] == NUL)
    ensures |a'| <= |a|
  {
    if a' != [] {
      var i := |a'| - 1;
      assert (a' + x')[i] == NUL;
      assert (a + x)[i] == NUL;
      forall j | |a| <= j < |a + x| ensures (a + x)[j] != NUL {
        assert (a + x)[j] == x[j - |a|];
      }
    }
  }

  /** sftfs_cache_add_dir_entry on the names' string. */
  method AddDirEntry(entries: Str, entry: string, ghost names: seq<string>)
    requires entries.Valid() && entries.Text() == Encode(names) && NUL !in entry
    modifies entries, entries.c
    ensures entries.Valid() && entries.Text() == Encode(names + [entry]) == old(entries.Text()) + entry + [NUL]
    ensures entries.c == old(entries.c) || fresh(entries.c)
  {
    entries.Extend(entry + [NUL]);
    assert (names + [entry])[..|names|] == names;
  }

  /** sftfs_cache_read_dir: `buffer` is what the handle may look at, the string with its terminator. */
  method ReadDir(buffer: seq<char>, curr: nat, ghost names: seq<string>, ghost k: nat)
      returns (entry: Option<string>, next: nat)
    requires buffer == Encode(names) + [NUL] && NulFree(names) && k <= |names| && curr == StartOf(names, k)
    ensures if k < |names| && names[k] != "" then entry == Some(names[k]) && next == StartOf(names, k + 1)
      else entry == None && next == curr
  {
    hide Encode, StartOf;
    if k < |names| {
      NameAt(names, k);
      assert names[k] != "" ==> buffer[curr] == names[k][0];
    } else {
      AtEnd(names);
    }
    if buffer[curr] == NUL {
      return None, curr;
    }
    next := curr + 1;
    forall i | curr <= i < curr + |names[k]| ensures buffer[i] == names[k][i - curr] != NUL {
      assert buffer[curr + (i - curr)] == names[k][i - curr];
    }
    while buffer[next] != NUL
      invariant curr < next <= curr + |names[k]|
      decreases curr + |names[k]| - next
    {
      next := next + 1;
    }
    assert next == curr + |names[k]|;
    assert buffer[curr..next] == names[k];
    entry := Some(buffer[curr..next]);
    next := next + 1;
  }

  /** Reading a listing from its start: the names come back in the order in which they were added, up
      to the first empty one. */
  method ReadAll(entries: Str, ghost names: seq<string>) returns (read: seq<string>)
    requires entries.Valid() && entries.Text() == Encode(names) && NulFree(names)
    ensures read == names[..FirstEmpty(names)]
    ensures read == names <==> "" !in names
  {
    var buffer := entries.c[..entries.size + 1];
    var entry, curr := ReadDir(buffer, 0, names, 0);
    read := [];
    while entry.Some?
      invariant |read| <= FirstEmpty(names) && read == names[..|read|]
      invariant entry == if |read| < FirstEmpty(names) then Some(names[|read|]) else None
      invariant entry.Some? ==> curr == StartOf(names, |read| + 1)
      decreases |names| - |read|
    {
      read := read + [entry.value];
      entry, curr := ReadDir(buffer, curr, names, |read|);
    }
    if FirstEmpty(names) == |names| {
      assert names[..|names|] == names;
    }
  }
}
