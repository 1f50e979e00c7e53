/** The growable string of src/abs/str.c: a buffer that always has room for one more character than
    its capacity and always holds a NUL behind the last one. */
module Strs {
  import opened Memory

  const NUL: char := '\0'

  /** What strlen and the other string functions of C see of a NUL-terminated buffer. */
  function CStr(s: seq<char>): (r: string)
    ensures r <= s && NUL !in r
    ensures |r| < |s| ==> s[|r|] == NUL
  {
    if s == [] || s[0] == NUL then [] else [s[0]] + CStr(s[1..])
  }

  lemma {:induction false} CStrOf(s: seq<char>, n: nat)
    requires n <= |s| && NUL !in s[..n] && (n == |s| || s[n] == NUL)
    ensures CStr(s) == s[..n]
  {
    if n > 0 {
      assert s[0] == s[..n][0] && s[1..][..n - 1] == s[..n][1..];
      CStrOf(s[1..], n - 1);
    }
  }

  lemma Joined(text: seq<char>, a: seq<char>, b: seq<char>)
    requires |text| == |a| + |b| && forall i :: 0 <= i < |a| ==> text[i] == a[i]
    requires forall i {:trigger b[i]} :: 0 <= i < |b| ==> text[|a| + i] == b[i]
    ensures text == a + b
  {
  }

  class Str {
    var size: nat
    var capacity: nat
    var c: array<char>

    ghost predicate Valid()
      reads this, c
    {
      size <= capacity && c.Length == capacity + 1 && c[size] == NUL
    }

    ghost function Text(): seq<char>
      requires Valid()
      reads this, c
    {
      c[..size]
    }

    lemma SizeOfText()
      requires Valid()
      ensures |Text()| == size
    {
    }

    /** sftfs_str_create; without `from` the characters are whatever the block held. */
    constructor (from: Option<seq<char>>, size: nat)
      requires from.Some? ==> size <= |from.value|
      ensures Valid() && fresh(c) && this.size == capacity == size
      ensures from.Some? ==> Text() == from.value[..size]
    {
      this.size, capacity := size, size;
      c := new char[size + 1](i requires 0 <= i <= size => if from.Some? && i < size then from.value[i] else NUL);
    }

    /** sftfs_str_reserve: realloc keeps what was in the block. */
    method Reserve(capacity: nat)
      requires Valid()
      modifies this
      ensures Valid() && size == old(size)
      ensures this.capacity == if old(this.capacity) < capacity then capacity else old(this.capacity)
      ensures c == old(c) || fresh(c)
      ensures c == old(c) <==> capacity <= old(this.capacity)
      ensures c[..old(this.capacity) + 1] == old(c[..])
    {
      if this.capacity < capacity {
        var old_c := c;
        var bigger := new char[capacity + 1];
        forall i | 0 <= i < old_c.Length {
          bigger[i] := old_c[i];
        }
        c := bigger;
        this.capacity := capacity;
      }
    }

    /** sftfs_str_resize */
    method Resize(size: nat)
      requires Valid()
      modifies this, c
      ensures Valid() && this.size == size
      ensures capacity == if old(capacity) < size then size else old(capacity)
      ensures c == old(c) || fresh(c)
      ensures size <= old(capacity) ==> c == old(c)
      ensures forall i :: 0 <= i < size && i <= old(capacity) ==> c[i] == old(c[i])
      ensures size <= old(this.size) ==> Text() == old(Text())[..size]
      ensures old(this.size) <= size ==> Text()[..old(this.size)] == old(Text())
    {
      ghost var was := c[..];
      Reserve(size);
      assert forall i :: 0 <= i < |was| ==> c[i] == c[..|was|][i];
      this.size := size;
      c[size] := NUL;
    }

    /** sftfs_str_shrink: false stands for NULL. */
    method Shrink(shrinkSize: nat) returns (ok: bool)
      requires Valid()
      modifies this, c
      ensures Valid() && c == old(c) && capacity == old(capacity)
      ensures ok <==> shrinkSize <= old(size)
      ensures Text() == if ok then old(Text())[..old(size) - shrinkSize] else old(Text())
    {
      if size < shrinkSize {
        return false;
      }
      Resize(size - shrinkSize);
      return true;
    }

    /** sftfs_str_extend */
    method Extend(from: seq<char>)
      requires Valid()
      modifies this, c
      ensures Valid() && Text() == old(Text()) + from
      ensures c == old(c) || fresh(c)
      ensures capacity == if old(capacity) < size then size else old(capacity)
    {
      var prevSize := size;
      ghost var t := Text();
      Resize(prevSize + |from|);
      forall i | 0 <= i < |from| {
        c[prevSize + i] := from[i];
      }
      c[size] := NUL;
      assert forall i :: 0 <= i < |t| ==> c[i] == t[i];
      Joined(Text(), t, from);
    }

    /** sftfs_str_append */
    method Append(ch: char)
      requires Valid()
      modifies this, c
      ensures Valid() && Text() == old(Text()) + [ch]
      ensures c == old(c) || fresh(c)
      ensures old(size < capacity) ==> capacity == old(capacity)
      ensures !old(size < capacity) ==> capacity == if old(capacity) == 0 then 1 else 2 * old(capacity)
    {
      ghost var was, oldSize := c[..], size;
      if capacity <= size {
        var newCapacity := if capacity == 0 then 1 else capacity * 2;
        Reserve(newCapacity);
      }
      assert c[..oldSize] == was[..oldSize];
      c[size] := ch;
      size := size + 1;
      c[size] := NUL;
      assert c[..oldSize] == was[..oldSize];
    }

    /** sftfs_str_assign */
    method Assign(from: seq<char>)
      requires Valid()
      modifies this, c
      ensures Valid() && Text() == from
      ensures c == old(c) || fresh(c)
    {
      Resize(|from|);
      forall i | 0 <= i < |from| {
        c[i] := from[i];
      }
      c[size] := NUL;
      assert c[..size] == from;
    }
  }
}
