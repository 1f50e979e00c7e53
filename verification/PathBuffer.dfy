/** Absolute paths and their parents. */
module Paths {

  ghost predicate Absolute(path: string) {
    path != [] && path[0] == '/'
  }

  /** The position of the last separator. */
  ghost function LastSeparator(path: string): (sep: nat)
    requires Absolute(path)
    ensures sep < |path| && path[sep] == '/' && forall i :: sep < i < |path| ==> path[i] != '/'
  {
    if path[|path| - 1] == '/' then |path| - 1 else LastSeparator(path[..|path| - 1])
  }

  /** The directory that the entry named by `path` is in. */
  ghost function ParentOf(path: string): string
    requires Absolute(path)
  {
    if LastSeparator(path) == 0 then "/" else path[..LastSeparator(path)]
  }

  /** The path that sftfs_cached_inval_all_dir takes for the parent. */
  ghost function CutTooShort(path: string): string
    requires Absolute(path)
  {
    if LastSeparator(path) == 0 then "" else path[..LastSeparator(path) - 1]
  }

  /** The entry of a directory has that directory for its parent; and where the path of the directory is
      cut short, its last character is lost. */
  lemma ParentOfEntry(dir: string, entry: string)
    requires Absolute(dir) && '/' !in entry && (dir == "/" || dir[|dir| - 1] != '/')
    ensures ParentOf(if dir == "/" then "/" + entry else dir + "/" + entry) == dir
    ensures dir != "/" ==> CutTooShort(dir + "/" + entry) == dir[..|dir| - 1]
    ensures CutTooShort("/" + entry) == ""
  {
    var path := if dir == "/" then "/" + entry else dir + "/" + entry;
    var sep := if dir == "/" then 0 else |dir|;
    assert path[sep] == '/';
    forall i | sep < i < |path| ensures path[i] != '/' {
      assert path[i] == entry[i - sep - 1];
    }
    assert LastSeparator(path) == sep;
    assert dir == path[..|dir|];
    assert LastSeparator("/" + entry) == 0;
  }

  /** find_last_seperator, as a position. */
  method FindLastSeparator(path: string) returns (sep: nat)
    requires Absolute(path)
    ensures sep == LastSeparator(path)
  {
    sep := 0;
    var i := 1;
    while i < |path|
      invariant 1 <= i <= |path| && sep < i && path[sep] == '/'
      invariant forall j :: sep < j < i ==> path[j] != '/'
    {
      if path[i] == '/' {
        sep := i;
      }
      i := i + 1;
    }
  }
}

/** The path buffer that walks the entries of a directory (push_entry and pop_entry of
    src/endp/cached.c): an entry is appended to the directory's path or, for "..", the path is cut
    short in place, and then the directory's path is put back. */
module PathBuffers {
  import opened Memory
  import opened Strs
  import opened Paths

  /** A path as the file system hands it out: absolute, free of NULs, and without a trailing
      separator unless it is the root. */
  ghost predicate Canonical(path: string) {
    Absolute(path) && NUL !in path && (path == "/" || path[|path| - 1] != '/')
  }

  /** The path that a listing of `path` looks up for one of its entries. */
  ghost function EntryPath(path: string, entry: string): string
    requires Absolute(path)
  {
    if entry == ".." then ParentOf(path) else if entry == "." then path else path + "/" + entry
  }

  /** The path of a directory's entry; ".." of the root is outside the mount and has none. */
  ghost function ProperPath(path: string, entry: string): Option<string>
    requires Absolute(path)
  {
    if entry == "." then Some(path)
    else if entry == ".." then if path == "/" then None else Some(ParentOf(path))
    else if path == "/" then Some("/" + entry) else Some(path + "/" + entry)
  }

  /** What a listing looks up is the entry's path, except for the entries of the root other than ".". */
  lemma EntryPathProperIff(path: string, entry: string)
    requires Canonical(path)
    ensures ProperPath(path, entry) == Some(EntryPath(path, entry)) <==> path != "/" || entry == "."
  {
    if path == "/" && entry != "." && entry != ".." {
      assert |EntryPath(path, entry)| == |entry| + 2;
      assert |ProperPath(path, entry).value| == |entry| + 1;
    }
  }

  /** The buffer while an entry is pushed: whether its text has grown, is cut short by a NUL in place
      of a separator, or is as it was, popping can tell. */
  ghost predicate Pushed(text: seq<char>, path: string, entry: string)
    requires Absolute(path)
  {
    if entry == ".." && path != "/" then text == path[LastSeparator(path) := NUL]
    else text == EntryPath(path, entry)
  }

  // mark_base_dir
  method MarkBaseDir(buffer: Str, ghost path: string)
    requires buffer.Valid() && Canonical(path) && buffer.Text() == path
    modifies buffer.c
    ensures buffer.Valid() && Pushed(buffer.Text(), path, "..")
  {
    var i := buffer.size - 1;
    ghost var sep := LastSeparator(path);
    assert forall k :: 0 <= k < |path| ==> buffer.c[k] == path[k];
    while buffer.c[i] != '/'
      invariant sep <= i < buffer.size
      decreases i
    {
      i := i - 1;
    }
    assert i == sep;
    if buffer.c[i + 1] != NUL {
      buffer.c[i] := NUL;
      assert buffer.Text() == path[sep := NUL];
    }
  }

  /** push_entry, for a name as it comes from a listing. */
  method PushEntry(buffer: Str, entry: string, ghost path: string)
    requires buffer.Valid() && Canonical(path) && buffer.Text() == path && NUL !in entry
    modifies buffer, buffer.c
    ensures buffer.Valid() && Pushed(buffer.Text(), path, entry)
    ensures buffer.c == old(buffer.c) || fresh(buffer.c)
  {
    if entry == ".." {
      MarkBaseDir(buffer, path);
    } else if entry != "." {
      buffer.Append('/');
      buffer.Extend(entry);
      assert path + ['/'] + entry == EntryPath(path, entry);
    }
  }

  // The C string in the buffer while an entry is pushed: cut short at the separator for "..", and all
  // of the text otherwise.
  lemma PushedString(buffer: Str, path: string, entry: string)
    requires buffer.Valid() && Canonical(path) && NUL !in entry && Pushed(buffer.Text(), path, entry)
    ensures entry == ".." && path != "/" ==> CStr(buffer.c[..]) == path[..LastSeparator(path)]
    ensures !(entry == ".." && path != "/") ==> CStr(buffer.c[..]) == EntryPath(path, entry)
  {
    var text, sep := buffer.Text(), LastSeparator(path);
    if entry == ".." && path != "/" {
      assert text[..sep] == path[..sep] && text[sep] == NUL;
      assert buffer.c[..][..sep] == text[..sep];
      CStrOf(buffer.c[..], sep);
    } else {
      assert buffer.c[..][..buffer.size] == text;
      CStrOf(buffer.c[..], buffer.size);
    }
  }

  /** What the buffer is taken for while an entry is pushed: the C string in it, or the root if that
      is empty. */
  method Current(buffer: Str, ghost path: string, ghost entry: string) returns (entryPath: string)
    requires buffer.Valid() && Canonical(path) && NUL !in entry && Pushed(buffer.Text(), path, entry)
    ensures entryPath == EntryPath(path, entry)
    ensures entry == "." ==> entryPath == path
    ensures entry == ".." ==> entryPath == if LastSeparator(path) == 0 then "/" else path[..LastSeparator(path)]
    ensures entry != "." && entry != ".." ==> entryPath == path + "/" + entry
  {
    PushedString(buffer, path, entry);
    var n := StrLen(buffer);
    entryPath := buffer.c[..n];
    if n == 0 {
      entryPath := "/";
    }
  }

  /** strlen */
  method StrLen(buffer: Str) returns (n: nat)
    requires buffer.Valid()
    ensures n <= buffer.size && buffer.c[..n] == CStr(buffer.c[..])
  {
    n := 0;
    while buffer.c[n] != NUL
      invariant n <= buffer.size && NUL !in buffer.c[..n]
      decreases buffer.size - n
    {
      n := n + 1;
    }
    assert buffer.c[..][..n] == buffer.c[..n];
    CStrOf(buffer.c[..], n);
  }

  /** pop_entry: it undoes push_entry, whatever was pushed. */
  method PopEntry(buffer: Str, originalSize: nat, ghost path: string, ghost entry: string)
    requires buffer.Valid() && Canonical(path) && NUL !in entry && Pushed(buffer.Text(), path, entry)
    requires originalSize == |path|
    modifies buffer, buffer.c
    ensures buffer.Valid() && buffer.Text() == path && buffer.c == old(buffer.c)
  {
    PushedString(buffer, path, entry);
    if originalSize < buffer.size {
      buffer.Resize(originalSize);
    } else {
      var n := StrLen(buffer);
      if n < originalSize {
        buffer.c[n] := '/';
      }
    }
  }
}
