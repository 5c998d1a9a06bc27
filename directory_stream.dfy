/** The input stream DataTool builds over a directory: it lists the
    directory's sub-directories and then its files, and yields, for each of
    them taken from the end of that list, a metadata record followed (for a
    file) by the file's bytes. A record is
      int     the record's own length, these four bytes included
      byte    1 for a file, 0 for a directory
      byte    1 when the entry is read-only
      varLong lastModified
      varLong the file's length (files only)
      UTF     the name relative to the base directory (a 16-bit length, then the bytes)
    Paths and names are their bytes; the modified UTF-8 encoding of Java
    strings is not modelled. */
module DirectoryStream {
  import opened Base
  import VarLong

  /** A file length: `File.length()` is never negative. */
  type Length = x: int | 0 <= x < 0x8000_0000_0000_0000

  /** A directory entry: its absolute path, what `File.isDirectory()` and
      `File.isFile()` report (an entry may be neither: a dangling link, a
      pipe, a device), its attributes, the length the file system reports
      and the bytes a reader of the file gets. */
  datatype Entry = Entry(path: seq<byte>, isDirectory: bool, isFile: bool, readOnly: bool, lastModified: i64,
                         length: Length, data: seq<byte>)

  // ---------------------------------------------------------------------
  // The listing
  // ---------------------------------------------------------------------

  /** The directories of a listing, in listing order. */
  function Dirs(list: seq<Entry>): (r: seq<Entry>)
    ensures |r| <= |list|
  {
    if list == [] then []
    else Dirs(list[..|list| - 1]) + (if list[|list| - 1].isDirectory then [list[|list| - 1]] else [])
  }

  /** The files of a listing, in listing order. */
  function Plain(list: seq<Entry>): (r: seq<Entry>)
    ensures |r| <= |list|
  {
    if list == [] then []
    else Plain(list[..|list| - 1]) + (if list[|list| - 1].isFile then [list[|list| - 1]] else [])
  }

  /** Splitting a listing keeps every directory and every file as often as
      it is listed, and drops every entry that is neither. */
  lemma {:induction false} ListingPerm(list: seq<Entry>, x: Entry)
    ensures multiset(Dirs(list))[x] == if x.isDirectory then multiset(list)[x] else 0
    ensures multiset(Plain(list))[x] == if x.isFile then multiset(list)[x] else 0
  {
    if list != [] {
      var n := |list| - 1;
      var front, last := list[..n], list[n];
      ListingPerm(front, x);
      assert list == front + [last];
      assert multiset(list)[x] == multiset(front)[x] + multiset([last])[x];
      assert Dirs(list) == Dirs(front) + (if last.isDirectory then [last] else []);
      assert Plain(list) == Plain(front) + (if last.isFile then [last] else []);
    }
  }

  /** A listing of directories and files only (what a file system holding
      nothing else lists) is split into a permutation of itself. */
  lemma {:induction false} ListingSplit(list: seq<Entry>)
    requires forall i :: 0 <= i < |list| ==> list[i].isDirectory != list[i].isFile
    ensures multiset(Dirs(list)) + multiset(Plain(list)) == multiset(list)
  {
    forall x
      ensures (multiset(Dirs(list)) + multiset(Plain(list)))[x] == multiset(list)[x]
    {
      ListingPerm(list, x);
      if x in list {
        var i :| 0 <= i < |list| && list[i] == x;
      }
    }
  }

  // ---------------------------------------------------------------------
  // The metadata record
  // ---------------------------------------------------------------------

  /** `current.substring(baseDir.length() + 1)` after the `startsWith` check:
      the name below the base directory, without the separator. */
  function RelativeName(baseDir: seq<byte>, path: seq<byte>): (r: Result<seq<byte>>)
    ensures r.Err? <==> !(baseDir < path)
    ensures r.Err? ==> r.error == (if baseDir <= path then IndexOutOfBounds else NotUnderBase)
    ensures r.Ok? ==> path == baseDir + [path[|baseDir|]] + r.value
  {
    if !(baseDir <= path) then Err(NotUnderBase)
    else if |path| == |baseDir| then Err(IndexOutOfBounds)
    else
      assert path == baseDir + [path[|baseDir|]] + path[|baseDir| + 1..];
      Ok(path[|baseDir| + 1..])
  }

  function Flag(b: bool): byte
  {
    if b then 1 else 0
  }

  /** The kind, the read-only flag, lastModified and a file's length. */
  function Attributes(e: Entry): (r: seq<byte>)
    ensures 3 <= |r| <= 22
  {
    VarLong.EncodeU64Length(U64(e.lastModified));
    VarLong.EncodeU64Length(e.length);
    [Flag(e.isFile), Flag(e.readOnly)] + VarLong.Encode(U64(e.lastModified))
      + (if e.isFile then VarLong.Encode(e.length) else [])
  }

  /** The fields of a record after its length: the attributes, then the
      name as writeUTF writes it. */
  function Fields(e: Entry, name: seq<byte>): (r: seq<byte>)
    requires |name| < 0x1_0000
    ensures 5 + |name| <= |r| <= 24 + |name|
  {
    Attributes(e) + BigEndian16(|name|) + name
  }

  /** The record of one entry, or the failure that stops the stream: a path
      outside the base directory, or a name writeUTF refuses. Its first four
      bytes, read as an int, give its whole length. */
  function Record(baseDir: seq<byte>, e: Entry): (r: Result<seq<byte>>)
    ensures r.Err? <==> RelativeName(baseDir, e.path).Err? || |RelativeName(baseDir, e.path).value| >= 0x1_0000
    ensures r.Err? && RelativeName(baseDir, e.path).Err? ==> r.error == RelativeName(baseDir, e.path).error
    ensures r.Err? && RelativeName(baseDir, e.path).Ok? ==> r.error == UtfTooLong
    ensures r.Ok? ==> |r.value| >= 9 && ReadBigEndian32(r.value) == |r.value|
    ensures r.Ok? ==> r.value[4..] == Fields(e, RelativeName(baseDir, e.path).value)
  {
    match RelativeName(baseDir, e.path)
    case Err(x) => Err(x)
    case Ok(name) =>
      if |name| >= 0x1_0000 then Err(UtfTooLong)
      else
        var body := Fields(e, name);
        var bytes := BigEndian32(4 + |body|) + body;
        BigEndian32RoundTrip(4 + |body|, body);
        assert bytes[4..] == body;
        Ok(bytes)
  }

  /** The attributes written after what `out` holds. */
  method WriteAttributes(out: seq<byte>, e: Entry) returns (out': seq<byte>)
    ensures out' == out + Attributes(e)
  {
    var time, _ := VarLong.WriteVarLong(e.lastModified);
    var size: seq<byte> := [];
    if e.isFile {
      var count;
      size, count := VarLong.WriteVarLong(e.length);
    }
    out' := out + ([Flag(e.isFile), Flag(e.readOnly)] + time + size);
  }

  /** `out.writeInt(metaOut.size())`, then the int just written copied over
      the placeholder and cut from the end. */
  method MoveLength(out: seq<byte>) returns (bytes: seq<byte>)
    requires 4 <= |out| < 0x8000_0000
    ensures bytes == BigEndian32(|out|) + out[4..]
  {
    var full := out + BigEndian32(|out|);
    bytes := full[|full| - 4..] + full[4..|full| - 4];
    assert full[|full| - 4..] == BigEndian32(|out|);
    assert full[4..|full| - 4] == out[4..];
  }

  /** The record as the stream builds it: a zero placeholder, the fields,
      the size written so far appended, then those last four bytes moved to
      the front. */
  method MetaBytes(baseDir: seq<byte>, e: Entry) returns (r: Result<seq<byte>>)
    ensures r == Record(baseDir, e)
  {
    var out := WriteAttributes(BigEndian32(0), e);
    var name := RelativeName(baseDir, e.path);
    if name.Err? {
      return Err(name.error);
    }
    if |name.value| >= 0x1_0000 {
      return Err(UtfTooLong);
    }
    out := out + BigEndian16(|name.value|) + name.value;
    assert out == BigEndian32(0) + Fields(e, name.value);
    var bytes := MoveLength(out);
    assert out[4..] == Fields(e, name.value);
    return Ok(bytes);
  }

  // ---------------------------------------------------------------------
  // What the stream has still to yield
  // ---------------------------------------------------------------------

  /** Bytes a stream yields, then how it stops: at its end (None) or with
      an exception. */
  datatype Tail = Tail(bytes: seq<byte>, stop: Option<Error>)

  /** `a`, then `b` when `a` ends cleanly. */
  function Then(a: Tail, b: Tail): (r: Tail)
    ensures a.bytes <= r.bytes
    ensures a.stop.Some? ==> r == a
  {
    if a.stop.Some? then a else Tail(a.bytes + b.bytes, b.stop)
  }

  const Done: Tail := Tail([], None)

  /** An open file with `remaining` bytes still announced: the stream fails
      with EOF when the file holds fewer. */
  function FileTail(data: seq<byte>, remaining: int): Tail
  {
    if remaining <= 0 then Done
    else if remaining <= |data| then Tail(data[..remaining], None)
    else Tail(data, Some(Eof))
  }

  /** One entry: its record, then a file's bytes. */
  function EntryTail(baseDir: seq<byte>, e: Entry): Tail
  {
    match Record(baseDir, e)
    case Err(x) => Tail([], Some(x))
    case Ok(r) => Then(Tail(r, None), if e.isFile then FileTail(e.data, e.length) else Done)
  }

  /** The entries still listed, taken from the end of the list. */
  function Pending(baseDir: seq<byte>, files: seq<Entry>): Tail
  {
    if files == [] then Done
    else Then(EntryTail(baseDir, files[|files| - 1]), Pending(baseDir, files[..|files| - 1]))
  }

  lemma {:induction false} ThenAssoc(a: Tail, b: Tail, c: Tail)
    ensures Then(Then(a, b), c) == Then(a, Then(b, c))
  {
    if a.stop.None? && b.stop.None? {
      assert (a.bytes + b.bytes) + c.bytes == a.bytes + (b.bytes + c.bytes);
    }
  }

  /** An entry whose record can be written, that fits the extractor's
      bound, and (for a file) whose bytes are all there. */
  predicate Intact(baseDir: seq<byte>, e: Entry)
  {
    Record(baseDir, e).Ok? && |Record(baseDir, e).value| - 4 <= 16384 &&
    (e.isFile ==> e.length <= |e.data|)
  }

  /** The bytes of an intact entry. */
  function Content(e: Entry): (r: seq<byte>)
    requires e.isFile ==> e.length <= |e.data|
  {
    if e.isFile then e.data[..e.length] else []
  }

  /** Over intact entries the stream ends cleanly, each entry's record
      followed by its bytes, the last entry of the list first. */
  lemma {:induction false} PendingIntact(baseDir: seq<byte>, files: seq<Entry>)
    requires forall e :: e in files ==> Intact(baseDir, e)
    ensures Pending(baseDir, files).stop.None?
    ensures files != [] ==>
              var e := files[|files| - 1];
              Pending(baseDir, files).bytes
                == Record(baseDir, e).value + Content(e) + Pending(baseDir, files[..|files| - 1]).bytes
  {
    if files != [] {
      var e := files[|files| - 1];
      assert e in files;
      var rest := files[..|files| - 1];
      assert forall x :: x in rest ==> x in files;
      PendingIntact(baseDir, rest);
      assert EntryTail(baseDir, e) == Tail(Record(baseDir, e).value + Content(e), None);
    }
  }

  /** Nothing before `rest` leaves `rest`. */
  lemma Skip(rest: Tail)
    ensures Then(Tail([], None), rest) == rest && Then(Done, rest) == rest
  {
    assert [] + rest.bytes == rest.bytes;
  }

  /** Reading the first of some buffered bytes. */
  lemma {:induction false} Next(buffered: seq<byte>, rest: Tail)
    requires buffered != []
    ensures var t := Then(Tail(buffered, None), rest);
            t.bytes != [] && t.bytes[0] == buffered[0] &&
            Then(Tail(buffered[1..], None), rest) == Tail(t.bytes[1..], t.stop)
  {
    assert (buffered + rest.bytes)[1..] == buffered[1..] + rest.bytes;
  }

  /** Reading the next byte of an open file. */
  lemma {:induction false} FileNext(data: seq<byte>, remaining: int, rest: Tail)
    requires data != [] && remaining > 0
    ensures var t := Then(FileTail(data, remaining), rest);
            t.bytes != [] && t.bytes[0] == data[0] &&
            Then(FileTail(data[1..], remaining - 1), rest) == Tail(t.bytes[1..], t.stop)
  {
    var f := FileTail(data, remaining);
    assert f == Then(Tail([data[0]], None), FileTail(data[1..], remaining - 1)) by {
      if remaining <= |data| {
        assert data[..remaining] == [data[0]] + data[1..][..remaining - 1];
      } else {
        assert data == [data[0]] + data[1..];
      }
    }
    ThenAssoc(Tail([data[0]], None), FileTail(data[1..], remaining - 1), rest);
    Next([data[0]], Then(FileTail(data[1..], remaining - 1), rest));
    assert [data[0]][1..] == [];
    Skip(Then(FileTail(data[1..], remaining - 1), rest));
  }

  /** Reading the first byte of the next entry's record. */
  lemma {:induction false} EntryNext(baseDir: seq<byte>, e: Entry, rest: Tail)
    requires Record(baseDir, e).Ok?
    ensures var r := Record(baseDir, e).value;
            var t := Then(EntryTail(baseDir, e), rest);
            t.bytes != [] && t.bytes[0] == r[0] &&
            Then(Tail(r[1..], None), Then(if e.isFile then FileTail(e.data, e.length) else Done, rest))
              == Tail(t.bytes[1..], t.stop)
  {
    var r := Record(baseDir, e).value;
    var x := if e.isFile then FileTail(e.data, e.length) else Done;
    ThenAssoc(Tail(r, None), x, rest);
    Next(r, Then(x, rest));
  }

  function Min(a: int, b: int): (r: int)
    ensures r <= a && r <= b && (r == a || r == b)
  {
    if a < b then a else b
  }

  /** Reading `n` bytes of an open file at once. */
  lemma {:induction false} FileTake(data: seq<byte>, remaining: int, n: nat, rest: Tail)
    requires n <= |data| && n <= remaining
    ensures var t := Then(FileTail(data, remaining), rest);
            t.bytes[..n] == data[..n] &&
            Then(FileTail(data[n..], remaining - n), rest) == Tail(t.bytes[n..], t.stop)
  {
    var f := FileTail(data, remaining);
    assert f == Then(Tail(data[..n], None), FileTail(data[n..], remaining - n)) by {
      if remaining <= |data| {
        assert data[..remaining] == data[..n] + data[n..][..remaining - n];
      } else {
        assert data == data[..n] + data[n..];
      }
    }
    ThenAssoc(Tail(data[..n], None), FileTail(data[n..], remaining - n), rest);
    var u := Then(FileTail(data[n..], remaining - n), rest);
    assert (data[..n] + u.bytes)[n..] == u.bytes;
    assert (data[..n] + u.bytes)[..n] == data[..n];
  }

  /** A file shorter than a bulk read yields fewer bytes than asked for. */
  lemma {:induction false} FileShort(data: seq<byte>, remaining: int, n: nat, rest: Tail)
    requires |data| < n <= remaining
    ensures n > |Then(FileTail(data, remaining), rest).bytes|
  {
  }

  /** The bytes read, copied into the caller's array at `offset`. */
  method Place(buff: array<byte>, offset: nat, got: seq<byte>)
    requires offset + |got| <= buff.Length
    modifies buff
    ensures buff[offset..offset + |got|] == got
    ensures forall i :: 0 <= i < buff.Length && !(offset <= i < offset + |got|) ==> buff[i] == old(buff[i])
  {
    var k := 0;
    while k < |got|
      invariant 0 <= k <= |got|
      invariant buff[offset..offset + k] == got[..k]
      invariant forall i :: 0 <= i < buff.Length && !(offset <= i < offset + k) ==> buff[i] == old(buff[i])
    {
      buff[offset + k] := got[k];
      k := k + 1;
    }
  }

  /** addDirectory: every sub-directory of the listing, then every file,
      each group in listing order. */
  method AddDirectory(list: seq<Entry>) returns (files: seq<Entry>)
    ensures files == Dirs(list) + Plain(list)
  {
    files := [];
    var i := 0;
    while i < |list|
      invariant 0 <= i <= |list| && files == Dirs(list[..i])
    {
      assert list[..i + 1][..i] == list[..i];
      if list[i].isDirectory {
        files := files + [list[i]];
      }
      i := i + 1;
    }
    assert list[..|list|] == list;
    ghost var dirs := files;
    i := 0;
    while i < |list|
      invariant 0 <= i <= |list| && files == dirs + Plain(list[..i])
    {
      assert list[..i + 1][..i] == list[..i];
      if list[i].isFile {
        files := files + [list[i]];
      }
      i := i + 1;
    }
  }

  // ---------------------------------------------------------------------
  // The stream
  // ---------------------------------------------------------------------

  /** Entries yielded from the last to the first. */
  function Concat(tails: seq<Tail>): Tail
  {
    if tails == [] then Done else Then(tails[|tails| - 1], Concat(tails[..|tails| - 1]))
  }

  /** Listing the entries' yields first is listing the entries. */
  lemma {:induction false} ConcatPending(baseDir: seq<byte>, files: seq<Entry>, tails: seq<Tail>)
    requires |tails| == |files|
    requires forall i :: 0 <= i < |files| ==> tails[i] == EntryTail(baseDir, files[i])
    ensures Concat(tails) == Pending(baseDir, files)
  {
    if files != [] {
      var n := |files| - 1;
      ConcatPending(baseDir, files[..n], tails[..n]);
    }
  }

  /** Taking one more byte of `bytes` after its front `got`. */
  lemma {:induction false} SliceStep(bytes: seq<byte>, got: seq<byte>, x: byte)
    requires |got| < |bytes| && got == bytes[..|got|] && bytes[|got|..][0] == x
    ensures bytes[|got|..][1..] == bytes[|got| + 1..]
    ensures bytes[..|got| + 1] == got + [x]
  {
  }

  class DirectoryInputStream {
    const baseDir: seq<byte>
    /** The entries not reached yet; the last one is next. */
    var files: seq<Entry>
    /** The unread bytes of the current record, and whether the record is
        still held (`meta != null`): it is let go only by the read() that
        finds it used up. */
    var meta: seq<byte>
    var live: bool
    /** Whether a file is open (`fileIn != null`), its unread bytes and how
        many of them the record announced and are still to come. */
    var open: bool
    var data: seq<byte>
    var remaining: Length
    /** What each entry not reached yet will yield. */
    ghost var tails: seq<Tail>

    ghost predicate Valid()
      reads this`files, this`tails, this`meta, this`live
    {
      (meta != [] ==> live) &&
      |tails| == |files| &&
      forall i {:trigger EntryTail(baseDir, files[i])} :: 0 <= i < |files| ==> tails[i] == EntryTail(baseDir, files[i])
    }

    /** What the stream has still to yield. */
    ghost function Ahead(): Tail
      reads this
    {
      Then(Tail(meta, None), Then(if open then FileTail(data, remaining) else Done, Concat(tails)))
    }

    /** The stream over a directory whose listing is `list`: it yields every
        file's entry, then every directory's, each group from the end of the
        listing. */
    constructor (baseDir: seq<byte>, list: seq<Entry>)
      ensures Valid() && this.baseDir == baseDir && files == Dirs(list) + Plain(list)
      ensures Ahead() == Pending(baseDir, Dirs(list) + Plain(list))
    {
      this.baseDir := baseDir;
      var listed := AddDirectory(list);
      files := listed;
      meta := [];
      live := false;
      open := false;
      data := [];
      remaining := 0;
      tails := seq(|listed|, i requires 0 <= i < |listed| => EntryTail(baseDir, listed[i]));
      new;
      ConcatPending(baseDir, files, tails);
      Skip(Pending(baseDir, files));
    }

    /** read(): the next byte of the stream, -1 at its end, or the failure
        the stream stops with. */
    method Read() returns (r: Result<int>)
      requires Valid()
      modifies this
      ensures Valid()
      ensures var t := old(Ahead());
              if t.bytes != [] then r == Ok(t.bytes[0]) && Ahead() == Tail(t.bytes[1..], t.stop)
              else if t.stop.None? then r == Ok(-1) && Ahead() == t
              else r == Err(t.stop.value)
    ensures live == (old(meta) != [] || (!(old(open) && old(remaining) > 0) && r.Ok? && r.value != -1))
    {
      if meta != [] {
        r := ReadMeta();
        return;
      }
      live := false;  // meta = null
      if open && remaining > 0 {
        r := ReadFile();
      } else {
        r := ReadEntry();
      }
    }

    /** read() while a record is being read. */
    method ReadMeta() returns (r: Result<int>)
      requires Valid() && meta != []
      modifies this
      ensures Valid()
      ensures var t := old(Ahead());
              t.bytes != [] && r == Ok(t.bytes[0]) && Ahead() == Tail(t.bytes[1..], t.stop)
    ensures live
    {
      Next(meta, Then(if open then FileTail(data, remaining) else Done, Concat(tails)));
      r := Ok(meta[0]);
      meta := meta[1..];
    }

    /** read() from the open file while the record announces more bytes:
        `remaining` drops before the end of the file is noticed. */
    method ReadFile() returns (r: Result<int>)
      requires Valid() && meta == [] && open && remaining > 0
      modifies this
      ensures Valid()
      ensures var t := old(Ahead());
              if t.bytes != [] then r == Ok(t.bytes[0]) && Ahead() == Tail(t.bytes[1..], t.stop)
              else t.stop.Some? && r == Err(t.stop.value)
    ensures live == old(live)
    {
      ghost var later := Concat(tails);
      Skip(Then(FileTail(data, remaining), later));
      var x: int := if data == [] then -1 else data[0];  // fileIn.read()
      remaining := remaining - 1;
      if x < 0 {
        return Err(Eof);
      }
      FileNext(data, remaining + 1, later);
      data := data[1..];
      Skip(Then(FileTail(data, remaining), later));
      return Ok(x);
    }

    /** read() between entries: close the used-up file, then build the
        next entry's record and give its first byte, or -1 when no entry
        is left. */
    method ReadEntry() returns (r: Result<int>)
      requires Valid() && !live && !(open && remaining > 0)
      modifies this
      ensures Valid()
      ensures var t := old(Ahead());
              if t.bytes != [] then r == Ok(t.bytes[0]) && Ahead() == Tail(t.bytes[1..], t.stop)
              else if t.stop.None? then r == Ok(-1) && Ahead() == t
              else r == Err(t.stop.value)
    ensures live == (r.Ok? && r.value != -1)
    {
      Skip(Concat(tails));
      Skip(Then(if open then FileTail(data, remaining) else Done, Concat(tails)));
      open := false;  // fileIn.close()
      if files == [] {
        return Ok(-1);
      }
      var e := Pop();
      Skip(Concat(tails));
      r := Enter(e);
    }

    /** The entry just taken from the list: its record is built and its
        first byte given, and a file is opened. */
    method Enter(e: Entry) returns (r: Result<int>)
      requires meta == [] && !live && !open
      modifies this`meta, this`live, this`open, this`data, this`remaining
      ensures var t := Then(EntryTail(baseDir, e), Concat(tails));
              if t.bytes != [] then r == Ok(t.bytes[0]) && Ahead() == Tail(t.bytes[1..], t.stop)
              else t.stop.Some? && r == Err(t.stop.value)
    ensures live == r.Ok? && (meta != [] ==> live)
    {
      if e.isFile {
        remaining := e.length;
      }
      var record := MetaBytes(baseDir, e);
      if record.Err? {
        return Err(record.error);
      }
      EntryNext(baseDir, e, Concat(tails));
      meta := record.value[1..];
      live := true;
      if e.isFile {
        open := true;
        data := e.data;
      }
      r := Ok(record.value[0]);
    }

    /** `files.remove(files.size() - 1)`. */
    method Pop() returns (e: Entry)
      requires Valid() && files != []
      modifies this
      ensures Valid() && files == old(files)[..|old(files)| - 1] && e == old(files)[|old(files)| - 1]
      ensures old(Concat(tails)) == Then(EntryTail(baseDir, e), Concat(tails))
      ensures meta == old(meta) && live == old(live) && open == old(open) && data == old(data) && remaining == old(remaining)
    {
      e := files[|files| - 1];
      assert tails[|files| - 1] == EntryTail(baseDir, e);
      files := files[..|files| - 1];
      tails := tails[..|tails| - 1];
      forall i | 0 <= i < |files|
        ensures tails[i] == EntryTail(baseDir, files[i])
      {
        assert files[i] == old(files)[i];
        assert old(tails)[i] == EntryTail(baseDir, old(files)[i]);
      }
    }

    /** read(buff, offset, length): while a record is held (even one whose
        last byte has been read), no file is open or the open file is used up, InputStream's own read(byte[])
        fills the buffer by calling read() until `length` bytes, the end of
        the stream or a failure after the first byte (an IOException is then
        dropped, a RuntimeException propagates); otherwise up to `length` bytes of the open file are read at
        once, and a file shorter than announced fails with EOF. */
    method ReadInto(buff: array<byte>, offset: nat, length: nat) returns (r: Result<int>)
      requires Valid() && offset + length <= buff.Length
      modifies this, buff
      ensures Valid()
      ensures forall i :: 0 <= i < buff.Length && !(offset <= i < offset + length) ==> buff[i] == old(buff[i])
      ensures var t := old(Ahead());
              var direct := !old(live) && old(open) && old(remaining) != 0;
              var n := if direct then Min(length, old(remaining)) else Min(length, |t.bytes|);
              if direct && n > |t.bytes| then r == Err(Eof)
              else if !direct && length != 0 && t.bytes == [] then r == (if t.stop.None? then Ok(-1) else Err(t.stop.value))
              else if !direct && |t.bytes| < length && t.stop.Some? && Unchecked(t.stop.value) then r == Err(t.stop.value)
              else r == Ok(n) && buff[offset..offset + n] == t.bytes[..n] &&
                   (direct || n == length || t.stop.None? ==> Ahead() == Tail(t.bytes[n..], t.stop))
    {
      var got: seq<byte>;
      if live || !open || remaining == 0 {
        r, got := Gather(length);
      } else {
        r, got := ReadDirect(length);
      }
      if r.Ok? && r.value >= 0 {
        Place(buff, offset, got);
      }
    }

    /** InputStream.read(byte[], int, int): read() byte after byte; the
        bytes read, in order. A failure after the first byte ends the read
        with the bytes so far when it is an IOException, and propagates when
        it is a RuntimeException. */
    method Gather(length: nat) returns (r: Result<int>, got: seq<byte>)
      requires Valid()
      modifies this
      ensures Valid()
      ensures var t := old(Ahead());
              var n := Min(length, |t.bytes|);
              if length != 0 && t.bytes == [] then r == (if t.stop.None? then Ok(-1) else Err(t.stop.value))
              else if |t.bytes| < length && t.stop.Some? && Unchecked(t.stop.value) then r == Err(t.stop.value)
              else r == Ok(n) && got == t.bytes[..n] &&
                   (n == length || t.stop.None? ==> Ahead() == Tail(t.bytes[n..], t.stop))
    {
      ghost var t := Ahead();
      if length == 0 {
        return Ok(0), [];
      }
      var c := Read();
      if c.Err? {
        return Err(c.error), [];
      }
      if c.value == -1 {
        return Ok(-1), [];
      }
      assert t.bytes[..1] == [c.value];
      r, got := GatherRest(length, t, [c.value]);
    }

    /** The loop of InputStream.read(byte[], int, int) after its first byte. */
    method GatherRest(length: nat, ghost t: Tail, start: seq<byte>) returns (r: Result<int>, got: seq<byte>)
      requires Valid()
      requires 1 <= |start| <= length && |start| <= |t.bytes| && start == t.bytes[..|start|]
      requires Ahead() == Tail(t.bytes[|start|..], t.stop)
      modifies this
      ensures Valid()
      ensures var n := Min(length, |t.bytes|);
              if |t.bytes| < length && t.stop.Some? && Unchecked(t.stop.value) then r == Err(t.stop.value)
              else r == Ok(n) && got == t.bytes[..n] &&
                   (n == length || t.stop.None? ==> Ahead() == Tail(t.bytes[n..], t.stop))
    {
      got := start;
      while |got| < length
        invariant Valid()
        invariant 1 <= |got| <= length && |got| <= |t.bytes| && got == t.bytes[..|got|]
        invariant Ahead() == Tail(t.bytes[|got|..], t.stop)
      {
        var c := Read();
        if c.Err? || c.value == -1 {
          assert |got| == |t.bytes| && t.bytes[..|got|] == t.bytes;
          if c.Err? && Unchecked(c.error) {
            return Err(c.error), [];
          }
          return Ok(|got|), got;
        }
        SliceStep(t.bytes, got, c.value);
        got := got + [c.value];
      }
      return Ok(|got|), got;
    }

    /** The bulk read of the open file: `readFully` of as many bytes as asked
        for and announced. */
    method ReadDirect(length: nat) returns (r: Result<int>, got: seq<byte>)
      requires Valid() && !live && open && remaining != 0
      modifies this
      ensures Valid()
      ensures var t := old(Ahead());
              var n := Min(length, old(remaining));
              if n > |t.bytes| then r == Err(Eof)
              else r == Ok(n) && got == t.bytes[..n] && Ahead() == Tail(t.bytes[n..], t.stop)
    {
      ghost var later := Concat(tails);
      Skip(Then(FileTail(data, remaining), later));
      var n: nat := if length < remaining then length else remaining;
      if |data| < n {
        FileShort(data, remaining, n, later);
        return Err(Eof), [];
      }
      FileTake(data, remaining, n, later);
      got := data[..n];
      data := data[n..];
      remaining := remaining - n;
      Skip(Then(FileTail(data, remaining), later));
      r := Ok(n);
    }
  }
}
