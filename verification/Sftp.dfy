/** The endpoint over SFTP (src/endp/sftp.c): the shared buffer for absolute paths, and reading and
    writing a file in the pieces that the server is willing to move. */
module Sftp {
  import opened Memory
  import opened Strs

  /** struct sftfs_sftp, as far as paths go. */
  class PathPrefix {
    const path: Str
    const baseDirLen: nat
    ghost const baseDir: string

    /** The buffer still starts with the base directory, whatever follows. */
    ghost predicate Valid()
      reads this, path, path.c
    {
      && path.Valid() && |baseDir| == baseDirLen <= path.size
      && path.Text()[..baseDirLen] == baseDir
    }

    /** sftfs_sftp_construct, as far as paths go: the root counts as no directory at all, so that its
        separator is not there twice. */
    constructor (workDir: string)
      ensures Valid() && fresh(path) && fresh(path.c)
      ensures baseDir == if workDir == "/" then "" else workDir
    {
      var n := |workDir|;
      if n == 1 && workDir[0] == '/' {
        n := 0;
      }
      path := new Str(Some(workDir), n);
      baseDirLen, baseDir := n, workDir[..n];
    }

    /** get_abs_path: the base directory followed by the argument, whatever was asked for before. */
    method GetAbsPath(relPath: string)
      requires Valid() && NUL !in relPath
      modifies path, path.c
      ensures Valid() && path.Text() == baseDir + relPath
      ensures path.c == old(path.c) || fresh(path.c)
    {
      path.Resize(baseDirLen);
      path.Extend(relPath);
    }

    /** Any number of calls: each gets its own path, and the base directory survives them all. */
    method GetAbsPaths(relPaths: seq<string>) returns (paths: seq<string>)
      requires Valid() && forall i :: 0 <= i < |relPaths| ==> NUL !in relPaths[i]
      modifies path, path.c
      ensures Valid()
      ensures |paths| == |relPaths| && forall i :: 0 <= i < |paths| ==> paths[i] == baseDir + relPaths[i]
    {
      paths := [];
      var i := 0;
      while i < |relPaths|
        invariant 0 <= i <= |relPaths| && Valid() && |paths| == i
        invariant path.c == old(path.c) || fresh(path.c)
        invariant forall k :: 0 <= k < i ==> paths[k] == baseDir + relPaths[k]
      {
        GetAbsPath(relPaths[i]);
        paths := paths + [path.c[..path.size]];
        i := i + 1;
      }
    }
  }

  type Byte = bv8

  /** Writing `data` at `off`; what was never written before it reads as zero. */
  function Overwrite(file: seq<Byte>, off: nat, data: seq<Byte>): (r: seq<Byte>)
    ensures |r| == if data == [] || off + |data| < |file| then |file| else off + |data|
    ensures data != [] ==> r[off..off + |data|] == data
  {
    if data == [] then file
    else if |file| <= off then file + seq(off - |file|, _ => 0) + data
    else file[..off] + data + (if off + |data| < |file| then file[off + |data|..] else [])
  }

  /** What a read of `size` bytes at `off` sees. */
  function Window(file: seq<Byte>, off: nat, size: nat): (r: seq<Byte>)
    ensures |r| == if off <= |file| then Min(size, |file| - off) else 0
  {
    if |file| <= off then [] else file[off..off + Min(size, |file| - off)]
  }

  function Min(a: nat, b: nat): nat {
    if a < b then a else b
  }

  // Nothing read yet.
  lemma WindowStart(file: seq<Byte>, off: nat, size: nat, was: seq<Byte>)
    ensures Filled(was, was, 0, Window(file, off, 0))
  {
  }

  lemma WindowsJoin(file: seq<Byte>, off: nat, size: nat, done: nat, n: nat)
    requires done <= |Window(file, off, size)| && done + n <= size && n <= |Window(file, off + done, size - done)|
    ensures done + n <= |Window(file, off, size)| && |Window(file, off, done)| == done
    ensures Window(file, off, done + n) == Window(file, off, done) + Window(file, off + done, n)
  {
  }

  lemma WindowHere(file: seq<Byte>, off: nat, size: nat, n: nat)
    requires n <= |Window(file, off, size)|
    ensures |Window(file, off, size)| <= size
    ensures n > 0 ==> off + n <= |file| && Window(file, off, n) == file[off..off + n]
  {
  }

  // There is no more to read once all was read or the rest of the window is empty.
  lemma WindowEnd(file: seq<Byte>, off: nat, size: nat, n: nat)
    requires n <= size && n <= |Window(file, off, size)|
    requires n == size || Window(file, off + n, size - n) == []
    ensures Window(file, off, n) == Window(file, off, size) && |Window(file, off, size)| == n
  {
  }

  // What the buffer holds once the window is in it.
  lemma WindowRead(file: seq<Byte>, off: nat, size: nat, was: seq<Byte>, after: seq<Byte>)
    requires size <= |was| && Filled(was, after, 0, Window(file, off, size))
    ensures var rest := if |file| <= off then 0 else |file| - off;
      var n := if rest < size then rest else size;
      && |Window(file, off, size)| == n <= |was| == |after|
      && after[n..] == was[n..] && (n > 0 ==> after[..n] == file[off..off + n])
  {
  }

  // The bytes after writing, one by one.
  lemma OverwriteByte(file: seq<Byte>, off: nat, data: seq<Byte>, i: nat)
    requires data != [] && (i < |file| || i < off + |data|)
    ensures Overwrite(file, off, data)[i] ==
      if off <= i < off + |data| then data[i - off] else if i < |file| then file[i] else 0
  {
  }

  /** Writing two pieces one behind the other is writing them at once. */
  lemma OverwriteOnward(file: seq<Byte>, off: nat, a: seq<Byte>, b: seq<Byte>)
    ensures Overwrite(Overwrite(file, off, a), off + |a|, b) == Overwrite(file, off, a + b)
  {
    if a == [] {
      assert a + b == b;
    } else if b == [] {
      assert a + b == a;
    } else {
      OverwriteTwice(file, off, a, b);
    }
  }

  lemma OverwriteTwice(file: seq<Byte>, off: nat, a: seq<Byte>, b: seq<Byte>)
    requires a != [] && b != []
    ensures Overwrite(Overwrite(file, off, a), off + |a|, b) == Overwrite(file, off, a + b)
  {
    hide Overwrite;
    var once := Overwrite(file, off, a);
    var twice, whole := Overwrite(once, off + |a|, b), Overwrite(file, off, a + b);
    forall i | 0 <= i < |whole| ensures twice[i] == whole[i] {
      OverwriteByte(once, off + |a|, b, i);
      OverwriteByte(file, off, a + b, i);
      if i < |once| {
        OverwriteByte(file, off, a, i);
      }
    }
  }

  lemma OverwriteNothing(file: seq<Byte>, off: nat)
    ensures Overwrite(file, off, []) == file
  {
  }

  /** The cast of the byte count to the 32-bit result. */
  function AsInt(n: nat): int {
    var m := n % 0x1_0000_0000;
    if m < 0x8000_0000 then m else m - 0x1_0000_0000
  }

  /** The buffer once a piece was put into it. */
  ghost predicate Filled(before: seq<Byte>, after: seq<Byte>, at: nat, piece: seq<Byte>) {
    at + |piece| <= |before| && after == before[..at] + piece + before[at + |piece|..]
  }

  lemma FilledByte(before: seq<Byte>, after: seq<Byte>, at: nat, piece: seq<Byte>)
    requires at + |piece| <= |before| == |after|
    requires forall i :: 0 <= i < |before| ==>
      after[i] == if at <= i < at + |piece| then piece[i - at] else before[i]
    ensures Filled(before, after, at, piece)
  {
  }

  /** An open file at the server, with the position that libssh keeps for it. Whether its n-th seek
      works and what the server has to say to its n-th transfer is anyone's guess, but fixed. */
  class RemoteFile {
    var content: seq<Byte>
    var pos: nat
    var seeks: nat
    var asked: nat
    const works: nat -> bool
    const answers: nat -> int

    constructor (content: seq<Byte>, works: nat -> bool, answers: nat -> int)
      ensures this.content == content && pos == 0 && seeks == 0 && asked == 0
      ensures this.works == works && this.answers == answers
    {
      this.content, pos, seeks, asked := content, 0, 0, 0;
      this.works, this.answers := works, answers;
    }

    // sftp_seek64
    method Seek(off: nat) returns (ok: bool)
      modifies this`pos, this`seeks
      ensures ok == works(old(seeks)) && seeks == old(seeks) + 1
      ensures pos == if ok then off else old(pos)
    {
      ok := works(seeks);
      seeks := seeks + 1;
      if ok {
        pos := off;
      }
    }

    // sftp_read: an error, or as many bytes as the server likes, and none only at the end of the file.
    method Read(buf: array<Byte>, at: nat, size: nat) returns (n: int)
      requires at + size <= buf.Length && size > 0
      modifies this`pos, this`asked, buf
      ensures asked == old(asked) + 1 && (n < 0 <==> answers(old(asked)) < 0)
      ensures n <= |Window(content, old(pos), size)| <= size
      ensures n >= 0 ==> (n == 0 <==> Window(content, old(pos), size) == [])
      ensures n < 0 ==> pos == old(pos)
      ensures n <= 0 ==> buf[..] == old(buf[..])
      ensures buf[at + size..] == old(buf[at + size..])
      ensures n >= 0 ==> pos == old(pos) + n
      ensures n > 0 ==> Filled(old(buf[..]), buf[..], at, Window(content, old(pos), n))
    {
      hide Filled, Window, Min;
      WindowHere(content, pos, size, |Window(content, pos, size)|);
      var answer := answers(asked);
      asked := asked + 1;
      if answer < 0 {
        return -1;
      }
      var available := |Window(content, pos, size)|;
      if available == 0 {
        return 0;
      }
      var chunk: nat := if answer == 0 then 1 else if available < answer then available else answer;
      ghost var p := pos;
      WindowHere(content, pos, size, chunk);
      forall i | 0 <= i < chunk {
        buf[at + i] := content[pos + i];
      }
      FilledByte(old(buf[..]), buf[..], at, content[p..p + chunk]);
      pos := pos + chunk;
      n := chunk;
    }

    // sftp_write: an error, or as many of the bytes as the server likes.
    method Write(data: seq<Byte>) returns (n: int)
      requires data != []
      modifies this`content, this`pos, this`asked
      ensures asked == old(asked) + 1
      ensures n == if answers(old(asked)) < 0 then -1 else Min(answers(old(asked)), |data|)
      ensures n < 0 ==> pos == old(pos) && content == old(content)
      ensures n >= 0 ==> pos == old(pos) + n && content == Overwrite(old(content), old(pos), data[..n])
    {
      n := if answers(asked) < 0 then -1 else Min(answers(asked), |data|);
      asked := asked + 1;
      if n >= 0 {
        content, pos := Overwrite(content, pos, data[..n]), pos + n;
      }
    }
  }

  /** What a transfer returns: the byte count cast to int, or a negative error number. */
  datatype Transfer = Moved(rc: int) | Error

  /** The first `done` bytes of the window are in the buffer, and the rest of it is as it was. */
  ghost predicate ReadSoFar(file: seq<Byte>, off: nat, size: nat, done: nat, was: seq<Byte>, now: seq<Byte>) {
    size <= |was| && done <= |Window(file, off, size)| && Filled(was, now, 0, Window(file, off, done))
  }

  lemma NothingRead(file: seq<Byte>, off: nat, size: nat, was: seq<Byte>)
    requires size <= |was|
    ensures ReadSoFar(file, off, size, 0, was, was)
  {
    WindowStart(file, off, size, was);
  }

  // What the buffer holds when there is no more to read.
  lemma AllRead(file: seq<Byte>, off: nat, size: nat, done: nat, was: seq<Byte>, now: seq<Byte>)
    requires done <= size && ReadSoFar(file, off, size, done, was, now)
    requires done == size || Window(file, off + done, size - done) == []
    ensures var rest := if |file| <= off then 0 else |file| - off;
      && done == (if rest < size then rest else size) && done <= |was| == |now|
      && now[done..] == was[done..] && (done > 0 ==> now[..done] == file[off..off + done])
  {
    hide Window, Filled;
    WindowEnd(file, off, size, done);
    WindowRead(file, off, size, was, now);
  }

  // One more piece of the file is in the buffer.
  lemma PieceRead(file: seq<Byte>, off: nat, size: nat, done: nat, n: nat, was: seq<Byte>, before: seq<Byte>,
        after: seq<Byte>)
    requires ReadSoFar(file, off, size, done, was, before) && done + n <= size
    requires n <= |Window(file, off + done, size - done)|
    requires Filled(before, after, done, Window(file, off + done, n))
    ensures ReadSoFar(file, off, size, done + n, was, after)
  {
    hide Filled, Window, Min;
    WindowsJoin(file, off, size, done, n);
    FilledOnward(was, before, after, Window(file, off, done), Window(file, off + done, n));
  }

  lemma FilledOnward(was: seq<Byte>, before: seq<Byte>, after: seq<Byte>, a: seq<Byte>, b: seq<Byte>)
    requires Filled(was, before, 0, a) && Filled(before, after, |a|, b)
    ensures Filled(was, after, 0, a + b)
  {
    assert before[..|a|] == a;
    assert before[|a| + |b|..] == was[|a| + |b|..];
  }

  /** sftfs_sftp_read: whatever pieces the server moves, the window of the file at the offset asked
      for, if the first seek works or the file is there already. A seek that fails goes unnoticed: if
      none works, what is read is the window at the position the file happens to be at. An error is the
      server's in the last transfer, and there was none before. */
  method Read(file: RemoteFile, buf: array<Byte>, size: nat, off: nat) returns (r: Transfer)
    requires size <= buf.Length
    modifies file`pos, file`seeks, file`asked, buf
    ensures buf[size..] == old(buf[size..])
    ensures size == 0 ==> r == Moved(AsInt(0))
    ensures var from := if file.works(old(file.seeks)) then off else old(file.pos);
      var steady := from == off || forall i :: old(file.seeks) < i ==> !file.works(i);
      var rest := if |file.content| <= from then 0 else |file.content| - from;
      var n := if rest < size then rest else size;
      r.Moved? && steady ==>
        r == Moved(AsInt(n)) && buf[n..] == old(buf[n..]) && (n > 0 ==> buf[..n] == file.content[from..from + n])
    ensures r.Error? <==> old(file.asked) < file.asked && file.answers(file.asked - 1) < 0
    ensures forall i :: old(file.asked) <= i < file.asked - 1 ==> file.answers(i) >= 0
  {
    hide Window, Filled, AsInt, Min, ReadSoFar;
    var bytesRead := 0;
    ghost var was, from := buf[..], if file.works(file.seeks) then off else file.pos;
    ghost var steady := from == off || forall i :: file.seeks < i ==> !file.works(i);
    NothingRead(file.content, from, size, was);
    while bytesRead < size
      invariant 0 <= bytesRead <= size && buf[size..] == was[size..]
      invariant file.seeks >= old(file.seeks) && file.asked >= old(file.asked)
      invariant forall i :: old(file.asked) <= i < file.asked ==> file.answers(i) >= 0
      invariant file.seeks == old(file.seeks) ==> bytesRead == 0 && file.pos == old(file.pos)
      invariant file.seeks > old(file.seeks) && steady ==> file.pos == from + bytesRead
      invariant steady ==> ReadSoFar(file.content, from, size, bytesRead, was, buf[..])
      decreases size - bytesRead
    {
      var sizeLeft := size - bytesRead;
      var ok := file.Seek(off + bytesRead);
      ghost var before := buf[..];
      var last := file.Read(buf, bytesRead, sizeLeft);
      if last < 0 {
        return Error;
      } else if last == 0 {
        break;
      } else if sizeLeft <= last {
        last := sizeLeft;
      }
      if steady {
        PieceRead(file.content, from, size, bytesRead, last, was, before, buf[..]);
      }
      bytesRead := bytesRead + last;
    }
    if steady {
      AllRead(file.content, from, size, bytesRead, was, buf[..]);
    }
    r := Moved(AsInt(bytesRead));
  }

  /** sftfs_sftp_write: exactly the bytes counted are in the file at the offset, if the first seek
      works or the file is there already; all of them, unless the server fails or moves none. */
  method Write(file: RemoteFile, buf: seq<Byte>, off: nat) returns (r: Transfer, ghost n: nat)
    modifies file`content, file`pos, file`seeks, file`asked
    ensures n <= |buf| && (r.Moved? ==> r == Moved(AsInt(n)))
    ensures var from := if file.works(old(file.seeks)) then off else old(file.pos);
      var steady := from == off || forall i :: old(file.seeks) < i ==> !file.works(i);
      steady ==> file.content == Overwrite(old(file.content), from, buf[..n])
    ensures r.Error? <==> old(file.asked) < file.asked && file.answers(file.asked - 1) < 0
    ensures forall i :: old(file.asked) <= i < file.asked - 1 ==> file.answers(i) >= 0
    ensures n == |buf| || (old(file.asked) < file.asked && file.answers(file.asked - 1) <= 0)
  {
    hide Overwrite, AsInt;
    var bytesWritten := 0;
    ghost var was, from := file.content, if file.works(file.seeks) then off else file.pos;
    ghost var steady := from == off || forall i :: file.seeks < i ==> !file.works(i);
    OverwriteNothing(was, from);
    while bytesWritten < |buf|
      invariant 0 <= bytesWritten <= |buf|
      invariant file.seeks >= old(file.seeks) && file.asked >= old(file.asked)
      invariant forall i :: old(file.asked) <= i < file.asked ==> file.answers(i) >= 0
      invariant file.seeks == old(file.seeks) ==> bytesWritten == 0 && file.pos == old(file.pos)
      invariant file.seeks > old(file.seeks) && steady ==> file.pos == from + bytesWritten
      invariant steady ==> file.content == Overwrite(was, from, buf[..bytesWritten])
      decreases |buf| - bytesWritten
    {
      var sizeLeft := |buf| - bytesWritten;
      var ok := file.Seek(off + bytesWritten);
      ghost var before := file.content;
      var last := file.Write(buf[bytesWritten..]);
      if last < 0 {
        return Error, bytesWritten;
      } else if last == 0 {
        OverwriteNothing(before, from + bytesWritten);
        break;
      } else if sizeLeft <= last {
        last := sizeLeft;
      }
      if steady {
        OverwriteOnward(was, from, buf[..bytesWritten], buf[bytesWritten..][..last]);
        assert buf[..bytesWritten] + buf[bytesWritten..][..last] == buf[..bytesWritten + last];
      }
      bytesWritten := bytesWritten + last;
    }
    n := bytesWritten;
    r := Moved(AsInt(bytesWritten));
  }

  /** With working seeks, and a server that neither fails nor refuses, a transfer of pieces is the
      transfer in one piece, at whatever offset and wherever the file was before. */
  method WriteThenRead(file: RemoteFile, data: seq<Byte>, off: nat) returns (buf: array<Byte>, r: Transfer)
    requires (forall i :: file.works(i)) && (forall i :: file.answers(i) > 0)
    modifies file
    ensures fresh(buf) && buf[..] == data && r == Moved(AsInt(|data|))
    ensures file.content == Overwrite(old(file.content), off, data)
  {
    hide AsInt;
    ghost var n;
    r, n := Write(file, data, off);
    assert data[..n] == data;
    buf := new Byte[|data|](_ => 0);
    r := Read(file, buf, |data|, off);
    assert Window(file.content, off, |data|) == data;
  }

  /** The count that the caller sees is an int that is the true one up to a multiple of four gigabytes, and
      the true one exactly below two gigabytes. */
  lemma CountTrueIff(n: nat)
    ensures -0x8000_0000 <= AsInt(n) < 0x8000_0000 && (n - AsInt(n)) % 0x1_0000_0000 == 0
    ensures AsInt(n) == n <==> n < 0x8000_0000
  {
  }
}
