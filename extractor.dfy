/** ExtractorOutputStream: the sink a directory stream is written back into.
    It reads a four-byte record length, then the record's fields, and then
    either recreates a directory, creates an empty file, or passes the
    announced number of bytes to the file (to disk when the file is the one
    asked for, to a discarded memory buffer otherwise); then it expects the
    next record length. The file system is a log of the effects the stream
    has on it; paths and names are their bytes. */
module Extractor {
  import opened Base
  import VarLong
  import DirectoryStream

  /** File.separator. */
  const SEPARATOR: byte := 47

  /** The longest record body the stream accepts. */
  const MAX_META: int := 16384

  /** The constructor's arguments: the only file name written to disk (all
      of them when None), the directory extracted into, and the name the
      written file gets instead of its own. */
  datatype Config = Config(originalName: Option<seq<byte>>, baseDir: seq<byte>, altName: Option<seq<byte>>)

  /** Where a file's bytes go: a file on disk, or a buffer thrown away. */
  datatype Sink = Disk | Memory

  /** What extracting does to the file system. */
  datatype Event =
    | MadeDir(path: seq<byte>, lastModified: i64, readOnly: bool)   // mkdirs, setLastModified, setReadOnly
    | MadeEmpty(path: seq<byte>)                                    // createNewFile
    | Wrote(path: seq<byte>, content: seq<byte>, lastModified: i64, readOnly: bool)

  /** The stream's state: the record bytes gathered (`buffer`), the bytes
      still expected for the current piece (`remaining`), the open sink
      (`actualOut`), the current path (`outputFile`), the bytes the open
      sink got, the attributes of the current entry, and the effects so far. */
  datatype State = State(buffer: seq<byte>, remaining: i64, sink: Option<Sink>, path: seq<byte>,
                         content: seq<byte>, lastModified: i64, readOnly: bool, log: seq<Event>)

  /** A new stream expects a four-byte record length. */
  const Start: State := State([], 4, None, [], [], 0, false, [])

  /** Between entries: the next byte begins a record length. */
  predicate Ready(s: State)
  {
    s.buffer == [] && s.remaining == 4 && s.sink.None?
  }

  /** `remaining--` on a Java long. */
  function Dec(x: i64): (r: i64)
    ensures x > -0x8000_0000_0000_0000 ==> r == x - 1
  {
    if x == -0x8000_0000_0000_0000 then 0x7fff_ffff_ffff_ffff else x - 1
  }

  // ---------------------------------------------------------------------
  // Reading a record back
  // ---------------------------------------------------------------------

  /** File.getName(): what follows the last separator. */
  function BaseName(p: seq<byte>): (r: seq<byte>)
    ensures SEPARATOR !in r && |r| <= |p|
    ensures SEPARATOR !in p ==> r == p
  {
    if p == [] then []
    else if p[|p| - 1] == SEPARATOR then []
    else BaseName(p[..|p| - 1]) + [p[|p| - 1]]
  }

  /** A name without separators is the name of the path it ends. */
  lemma {:induction false} BaseNameJoin(dir: seq<byte>, name: seq<byte>)
    requires SEPARATOR !in name
    ensures BaseName(dir + [SEPARATOR] + name) == name
  {
    if name == [] {
      assert dir + [SEPARATOR] + name == dir + [SEPARATOR];
    } else {
      var n := |name| - 1;
      assert (dir + [SEPARATOR] + name)[..|dir| + 1 + n] == dir + [SEPARATOR] + name[..n];
      assert name[n] in name;
      BaseNameJoin(dir, name[..n]);
      assert name[..n] + [name[n]] == name;
    }
  }

  /** The fields of a record. A directory has no length (0 here). */
  datatype Meta = Meta(isFile: bool, readOnly: bool, lastModified: i64, length: i64, name: seq<byte>)

  /** DataInputStream.read() on the buffered record: -1 past its end. */
  function ByteAt(s: seq<byte>, i: nat): int
  {
    if i < |s| then s[i] else -1
  }

  /** readUTF: a two-byte length, then that many bytes. */
  function ReadUtf(s: seq<byte>): (r: Result<seq<byte>>)
    ensures r.Err? ==> r.error == Eof
    ensures r.Ok? ==> 2 <= |s| && 2 + |r.value| <= |s| && r.value == s[2..2 + |r.value|] &&
                      |r.value| == BigEndianValue(s[..2])
  {
    if |s| < 2 then Err(Eof)
    else
      var n := BigEndianValue(s[..2]);
      if |s| - 2 < n then Err(Eof) else Ok(s[2..2 + n])
  }

  /** readUTF inverts writeUTF. */
  lemma ReadUtfWrite(name: seq<byte>)
    requires |name| < 0x1_0000
    ensures ReadUtf(BigEndian16(|name|) + name) == Ok(name)
  {
    var utf := BigEndian16(|name|) + name;
    assert utf[..2] == BigEndian16(|name|) && utf[2..2 + |name|] == name;
  }

  /** The bytes of a record after its first `i` (fewer when it is shorter). */
  function After(s: seq<byte>, i: nat): seq<byte>
  {
    if i <= |s| then s[i..] else []
  }

  /** The record's fields read back in the order they were written; EOF
      when the record ends inside a value. */
  function ParseMeta(body: seq<byte>): (r: Result<Meta>)
  {
    var isFile := ByteAt(body, 0) == 1;
    var readOnly := ByteAt(body, 1) == 1;
    var rest := After(body, 2);
    match VarLong.Decode(rest)
    case Err(x) => Err(x)
    case Ok(time) =>
      var rest := rest[time.size..];
      if isFile then
        match VarLong.Decode(rest)
        case Err(x) => Err(x)
        case Ok(size) =>
          match ReadUtf(rest[size.size..])
          case Err(x) => Err(x)
          case Ok(name) => Ok(Meta(true, readOnly, time.value, size.value, name))
      else
        match ReadUtf(rest)
        case Err(x) => Err(x)
        case Ok(name) => Ok(Meta(false, readOnly, time.value, 0, name))
  }

  /** Whether a file's bytes go to disk: every file's when no name was
      asked for, otherwise only those of the file with that name. */
  function ToDisk(cfg: Config, path: seq<byte>): bool
  {
    cfg.originalName.None? || BaseName(path) == cfg.originalName.value
  }

  /** Where a file goes: `altName` in the base directory instead of its own
      name, for a file that goes to disk and when `altName` is given. */
  function Target(cfg: Config, path: seq<byte>): (r: seq<byte>)
    ensures cfg.altName.None? ==> r == path
  {
    if cfg.altName.Some? && ToDisk(cfg, path) then cfg.baseDir + [SEPARATOR] + cfg.altName.value else path
  }

  /** The entry a parsed record starts: a directory is made at once; a file
      is renamed when it goes to disk; an empty file is created at once
      (without its attributes); otherwise its bytes are expected next. */
  function Enter(cfg: Config, s: State, m: Meta): (t: State)
    ensures t.buffer == [] && t.lastModified == m.lastModified && t.readOnly == m.readOnly
    ensures !m.isFile || m.length == 0 ==> t.remaining == 4 && t.sink == s.sink
    ensures m.isFile && m.length != 0 ==> t.remaining == m.length && t.sink.Some? && t.content == [] && t.log == s.log
  {
    var path := cfg.baseDir + [SEPARATOR] + m.name;
    var s1 := s.(buffer := [], lastModified := m.lastModified, readOnly := m.readOnly);
    if !m.isFile then
      s1.(remaining := 4, path := path, log := s.log + [MadeDir(path, m.lastModified, m.readOnly)])
    else if m.length == 0 then
      s1.(remaining := 4, path := Target(cfg, path), log := s.log + [MadeEmpty(Target(cfg, path))])
    else
      s1.(remaining := m.length, path := Target(cfg, path), content := [],
          sink := Some(if ToDisk(cfg, path) then Disk else Memory))
  }

  // ---------------------------------------------------------------------
  // write(int)
  // ---------------------------------------------------------------------

  /** write(int): one byte, and the state it leaves or the exception it
      throws. An open sink takes the byte and is closed when `remaining`
      reaches zero (a disk file then gets its attributes); otherwise the byte
      joins the record, and when `remaining` reaches zero a four-byte buffer
      is a record length (over MAX_META it is refused) and any other buffer
      is the record's fields. */
  function Step(cfg: Config, s: State, b: byte): Result<State>
  {
    if s.sink.Some? then
      var content := s.content + [b];
      var rem := Dec(s.remaining);
      if rem <= 0 then
        Ok(s.(sink := None, remaining := 4, content := [],
              log := if s.sink.value == Disk then s.log + [Wrote(s.path, content, s.lastModified, s.readOnly)] else s.log))
      else Ok(s.(content := content, remaining := rem))
    else
      var buffer := s.buffer + [b];
      var rem := Dec(s.remaining);
      if rem > 0 then Ok(s.(buffer := buffer, remaining := rem))
      else if |buffer| == 4 then
        var metaLength := ReadBigEndian32(buffer);
        if metaLength - 4 > MAX_META then Err(IllegalDirectoryStream)
        else Ok(s.(buffer := [], remaining := metaLength - 4))
      else
        match ParseMeta(buffer)
        case Err(x) => Err(x)
        case Ok(m) => Ok(Enter(cfg, s, m))
  }

  /** The bytes written one after the other: the state they leave, or the
      first exception. */
  function Feed(cfg: Config, s: State, bytes: seq<byte>): Result<State>
    decreases |bytes|
  {
    if bytes == [] then Ok(s)
    else
      match Step(cfg, s, bytes[0])
      case Err(x) => Err(x)
      case Ok(t) => Feed(cfg, t, bytes[1..])
  }

  /** Writing more after a result: nothing once it failed. */
  function Then(r: Result<State>, cfg: Config, bytes: seq<byte>): Result<State>
  {
    match r
    case Err(x) => Err(x)
    case Ok(s) => Feed(cfg, s, bytes)
  }

  /** How the writes are split does not matter: writing `a` then `b` is
      writing `a + b`. */
  lemma {:induction false} FeedAppend(cfg: Config, s: State, a: seq<byte>, b: seq<byte>)
    ensures Feed(cfg, s, a + b) == Then(Feed(cfg, s, a), cfg, b)
    decreases |a|
  {
    if a == [] {
      assert a + b == b;
    } else {
      assert (a + b)[0] == a[0] && (a + b)[1..] == a[1..] + b;
      if Step(cfg, s, a[0]).Ok? {
        FeedAppend(cfg, Step(cfg, s, a[0]).value, a[1..], b);
      }
    }
  }

  /** FeedAppend for adjacent slices. */
  lemma FeedSplit(cfg: Config, s: State, w: seq<byte>, i: nat, j: nat, k: nat)
    requires i <= j <= k <= |w|
    ensures Feed(cfg, s, w[i..k]) == Then(Feed(cfg, s, w[i..j]), cfg, w[j..k])
  {
    FeedAppend(cfg, s, w[i..j], w[j..k]);
    assert w[i..j] + w[j..k] == w[i..k];
  }

  /** Bytes that do not use up an open sink's count go to the sink. */
  lemma {:induction false} FeedSink(cfg: Config, s: State, c: seq<byte>)
    requires s.sink.Some? && |c| < s.remaining
    ensures Feed(cfg, s, c) == Ok(s.(content := s.content + c, remaining := s.remaining - |c|))
    decreases |c|
  {
    if c == [] {
      assert s.content + c == s.content;
    } else {
      var t := s.(content := s.content + [c[0]], remaining := s.remaining - 1);
      assert Step(cfg, s, c[0]) == Ok(t);
      FeedSink(cfg, t, c[1..]);
      assert t.content + c[1..] == s.content + c;
    }
  }

  /** Record bytes that do not complete the piece expected join the buffer. */
  lemma {:induction false} FeedBuffer(cfg: Config, s: State, c: seq<byte>)
    requires s.sink.None? && |c| < s.remaining
    ensures Feed(cfg, s, c) == Ok(s.(buffer := s.buffer + c, remaining := s.remaining - |c|))
    decreases |c|
  {
    if c == [] {
      assert s.buffer + c == s.buffer;
    } else {
      var t := s.(buffer := s.buffer + [c[0]], remaining := s.remaining - 1);
      assert Step(cfg, s, c[0]) == Ok(t);
      FeedBuffer(cfg, t, c[1..]);
      assert t.buffer + c[1..] == s.buffer + c;
    }
  }

  /** One byte written alone. */
  lemma FeedOne(cfg: Config, s: State, b: byte)
    ensures Feed(cfg, s, [b]) == Step(cfg, s, b)
  {
    assert [b][1..] == [];
  }

  /** Record bytes that complete the piece expected: all but the last
      join the buffer, and the last is written to the result. */
  lemma {:induction false} FeedLast(cfg: Config, s: State, c: seq<byte>)
    requires s.sink.None? && s.remaining == |c| && c != []
    ensures var k := |c| - 1;
            Feed(cfg, s, c) == Step(cfg, s.(buffer := s.buffer + c[..k], remaining := 1), c[k])
  {
    var k := |c| - 1;
    var t := s.(buffer := s.buffer + c[..k], remaining := 1);
    FeedBuffer(cfg, s, c[..k]);
    assert Feed(cfg, s, c[..k]) == Ok(t);
    FeedAppend(cfg, s, c[..k], [c[k]]);
    assert c[..k] + [c[k]] == c;
    FeedOne(cfg, t, c[k]);
  }

  /** A record length: four bytes from a stream between entries. A length
      whose body exceeds MAX_META stops the stream. */
  lemma {:induction false} FeedHeader(cfg: Config, s: State, h: seq<byte>)
    requires Ready(s) && |h| == 4
    ensures var n := ReadBigEndian32(h);
            Feed(cfg, s, h) == if n - 4 > MAX_META then Err(IllegalDirectoryStream) else Ok(s.(remaining := n - 4))
  {
    FeedLast(cfg, s, h);
    assert s.buffer + h[..3] + [h[3]] == h;
  }

  /** A record's body, once its length was read: the fields parsed and the
      entry entered, or the exception parsing throws. */
  lemma {:induction false} FeedBody(cfg: Config, s: State, body: seq<byte>)
    requires s.sink.None? && s.buffer == [] && s.remaining == |body| && |body| != 4 && body != []
    ensures Feed(cfg, s, body) == match ParseMeta(body)
                                  case Err(x) => Err(x)
                                  case Ok(m) => Ok(Enter(cfg, s, m))
  {
    var k := |body| - 1;
    var t := s.(buffer := body[..k], remaining := 1);
    FeedLast(cfg, s, body);
    assert s.buffer + body[..k] == body[..k] && t.buffer + [body[k]] == body;
    match ParseMeta(body)
    case Err(x) =>
    case Ok(m) => assert Enter(cfg, t, m) == Enter(cfg, s, m);
  }

  /** A file's announced bytes: the last one closes it, and a file on disk
      then holds all the bytes it got, with its attributes. */
  lemma {:induction false} FeedFile(cfg: Config, s: State, c: seq<byte>)
    requires s.sink.Some? && s.remaining == |c| && c != []
    ensures Feed(cfg, s, c) ==
              Ok(s.(sink := None, remaining := 4, content := [],
                    log := if s.sink.value == Disk then s.log + [Wrote(s.path, s.content + c, s.lastModified, s.readOnly)] else s.log))
  {
    var k := |c| - 1;
    var t := s.(content := s.content + c[..k], remaining := 1);
    FeedSink(cfg, s, c[..k]);
    assert Feed(cfg, s, c[..k]) == Ok(t);
    FeedAppend(cfg, s, c[..k], [c[k]]);
    assert c[..k] + [c[k]] == c;
    FeedOne(cfg, t, c[k]);
    assert t.content + [c[k]] == s.content + c;
  }

  /** The record a directory stream writes, read back: its fields as they
      were written, the name as the relative name. */
  function MetaOf(e: DirectoryStream.Entry, name: seq<byte>): Meta
  {
    Meta(e.isFile, e.readOnly, e.lastModified, if e.isFile then e.length else 0, name)
  }

  /** Parsing inverts writing a record's fields. */
  lemma {:induction false} ParseFields(e: DirectoryStream.Entry, name: seq<byte>)
    requires |name| < 0x1_0000
    ensures ParseMeta(DirectoryStream.Fields(e, name)) == Ok(MetaOf(e, name))
  {
    var body := DirectoryStream.Fields(e, name);
    var time := VarLong.Encode(U64(e.lastModified));
    var size := if e.isFile then VarLong.Encode(e.length) else [];
    var utf := BigEndian16(|name|) + name;
    var rest := size + utf;
    assert body == [DirectoryStream.Flag(e.isFile), DirectoryStream.Flag(e.readOnly)] + time + rest;
    assert ByteAt(body, 0) == 1 <==> e.isFile;
    assert ByteAt(body, 1) == 1 <==> e.readOnly;
    assert After(body, 2) == time + rest;
    VarLong.EncodeDecode(e.lastModified, rest);
    assert (time + rest)[|time|..] == rest;
    ReadUtfWrite(name);
    if e.isFile {
      VarLong.EncodeDecode(e.length, utf);
      assert rest[|size|..] == utf;
    } else {
      assert rest == utf;
    }
  }

  /** What extracting one entry of a directory stream does to the file
      system: a directory is made with its attributes; an empty file is
      created; a file that goes to disk is written, at its target, with its
      bytes and attributes; any other file leaves no trace. */
  function Events(cfg: Config, e: DirectoryStream.Entry, name: seq<byte>): seq<Event>
    requires e.isFile ==> e.length <= |e.data|
  {
    var path := cfg.baseDir + [SEPARATOR] + name;
    if !e.isFile then [MadeDir(path, e.lastModified, e.readOnly)]
    else if e.length == 0 then [MadeEmpty(Target(cfg, path))]
    else if ToDisk(cfg, path) then [Wrote(Target(cfg, path), DirectoryStream.Content(e), e.lastModified, e.readOnly)]
    else []
  }

  /** A record a directory stream writes, read back from between entries:
      the length accepted and the fields parsed as they were written. */
  lemma {:induction false} FeedRecord(cfg: Config, s: State, baseDir: seq<byte>, e: DirectoryStream.Entry)
    requires Ready(s) && DirectoryStream.Record(baseDir, e).Ok?
    requires |DirectoryStream.Record(baseDir, e).value| - 4 <= MAX_META
    ensures var rec := DirectoryStream.Record(baseDir, e).value;
            Feed(cfg, s, rec) ==
              Ok(Enter(cfg, s.(remaining := |rec| - 4), MetaOf(e, DirectoryStream.RelativeName(baseDir, e.path).value)))
  {
    var name := DirectoryStream.RelativeName(baseDir, e.path).value;
    var rec := DirectoryStream.Record(baseDir, e).value;
    var h, body := rec[..4], rec[4..];
    assert h + body == rec;
    assert ReadBigEndian32(h) == |rec| by {
      assert h[..4] == rec[..4];
    }
    FeedAppend(cfg, s, h, body);
    FeedHeader(cfg, s, h);
    ParseFields(e, name);
    FeedBody(cfg, s.(remaining := |body|), body);
  }

  /** Extracting an entry a directory stream writes: its record and its
      bytes leave the stream between entries again, having done the entry's
      events. */
  lemma {:induction false} FeedEntry(cfg: Config, s: State, baseDir: seq<byte>, e: DirectoryStream.Entry)
    requires Ready(s) && DirectoryStream.Intact(baseDir, e)
    ensures var r := Feed(cfg, s, DirectoryStream.Record(baseDir, e).value + DirectoryStream.Content(e));
            r.Ok? && Ready(r.value) &&
            r.value.log == s.log + Events(cfg, e, DirectoryStream.RelativeName(baseDir, e.path).value)
  {
    var name := DirectoryStream.RelativeName(baseDir, e.path).value;
    var rec := DirectoryStream.Record(baseDir, e).value;
    var c := DirectoryStream.Content(e);
    var t1 := s.(remaining := |rec| - 4);
    FeedAppend(cfg, s, rec, c);
    FeedRecord(cfg, s, baseDir, e);
    FeedContent(cfg, t1, e, name);
  }

  /** After an entry's record, its bytes complete the entry's events. */
  lemma {:induction false} FeedContent(cfg: Config, s: State, e: DirectoryStream.Entry, name: seq<byte>)
    requires s.sink.None? && (e.isFile ==> e.length <= |e.data|)
    ensures var r := Feed(cfg, Enter(cfg, s, MetaOf(e, name)), DirectoryStream.Content(e));
            r.Ok? && Ready(r.value) && r.value.log == s.log + Events(cfg, e, name)
  {
    var m := MetaOf(e, name);
    var t := Enter(cfg, s, m);
    var c := DirectoryStream.Content(e);
    var path := cfg.baseDir + [SEPARATOR] + name;
    if !e.isFile {
      assert c == [] && t.log == s.log + [MadeDir(path, e.lastModified, e.readOnly)];
    } else if e.length == 0 {
      assert c == [] && t.log == s.log + [MadeEmpty(Target(cfg, path))];
    } else {
      FeedFile(cfg, t, c);
      assert t.content + c == c;
      if ToDisk(cfg, path) {
        assert t.sink == Some(Disk) && t.path == Target(cfg, path);
      } else {
        assert t.sink == Some(Memory);
        assert s.log + [] == s.log;
      }
    }
  }

  /** A record whose body exceeds MAX_META stops the stream, whatever follows. */
  lemma {:induction false} RefuseLong(cfg: Config, s: State, baseDir: seq<byte>, e: DirectoryStream.Entry, rest: seq<byte>)
    requires Ready(s) && DirectoryStream.Record(baseDir, e).Ok?
    requires |DirectoryStream.Record(baseDir, e).value| - 4 > MAX_META
    ensures Feed(cfg, s, DirectoryStream.Record(baseDir, e).value + rest) == Err(IllegalDirectoryStream)
  {
    var rec := DirectoryStream.Record(baseDir, e).value;
    var h := rec[..4];
    assert h + (rec[4..] + rest) == rec + rest;
    assert ReadBigEndian32(h) == |rec| by {
      assert h[..4] == rec[..4];
    }
    FeedAppend(cfg, s, h, rec[4..] + rest);
    FeedHeader(cfg, s, h);
  }

  /** An entry recreated where it was: a directory with its attributes, an
      empty file, or a file with its bytes and attributes. */
  function Recreated(e: DirectoryStream.Entry): Event
    requires e.isFile ==> e.length <= |e.data|
  {
    if !e.isFile then MadeDir(e.path, e.lastModified, e.readOnly)
    else if e.length == 0 then MadeEmpty(e.path)
    else Wrote(e.path, DirectoryStream.Content(e), e.lastModified, e.readOnly)
  }

  /** An entry a directory stream sends intact, whose path separates its
      name from the base directory with SEPARATOR. */
  predicate Extractable(baseDir: seq<byte>, e: DirectoryStream.Entry)
  {
    DirectoryStream.Intact(baseDir, e) && e.path[|baseDir|] == SEPARATOR
  }

  /** The entries still listed, recreated in the order the stream sends them. */
  function RecreatedAll(baseDir: seq<byte>, files: seq<DirectoryStream.Entry>): (r: seq<Event>)
    requires forall e :: e in files ==> Extractable(baseDir, e)
    ensures |r| == |files|
  {
    if files == [] then []
    else
      assert files[|files| - 1] in files;
      assert Extractable(baseDir, files[|files| - 1]);
      assert DirectoryStream.Intact(baseDir, files[|files| - 1]);
      [Recreated(files[|files| - 1])] + RecreatedAll(baseDir, files[..|files| - 1])
  }

  /** Extracting one entry into the directory it was sent from recreates
      it at its own path. */
  lemma {:induction false} ExtractEntry(s: State, baseDir: seq<byte>, e: DirectoryStream.Entry)
    requires Ready(s) && Extractable(baseDir, e)
    ensures var r := Feed(Config(None, baseDir, None), s, DirectoryStream.Record(baseDir, e).value + DirectoryStream.Content(e));
            r.Ok? && Ready(r.value) && r.value.log == s.log + [Recreated(e)]
  {
    var cfg := Config(None, baseDir, None);
    FeedEntry(cfg, s, baseDir, e);
    var name := DirectoryStream.RelativeName(baseDir, e.path).value;
    assert e.path == cfg.baseDir + [SEPARATOR] + name;
  }

  /** Proof aid for ExtractAll: event logs append associatively. */
  lemma LogAssoc(a: seq<Event>, b: seq<Event>, c: seq<Event>)
    ensures (a + b) + c == a + (b + c)
  {
  }

  /** Extracting a whole directory stream into the directory it was made
      from, every file going to disk under its own name, recreates every
      entry at its own path and leaves the extractor between entries. */
  lemma {:induction false} ExtractAll(s: State, baseDir: seq<byte>, files: seq<DirectoryStream.Entry>)
    requires Ready(s)
    requires forall e :: e in files ==> Extractable(baseDir, e)
    ensures var r := Feed(Config(None, baseDir, None), s, DirectoryStream.Pending(baseDir, files).bytes);
            r.Ok? && Ready(r.value) && r.value.log == s.log + RecreatedAll(baseDir, files)
    decreases |files|
  {
    var cfg := Config(None, baseDir, None);
    assert forall x :: x in files ==> DirectoryStream.Intact(baseDir, x);
    DirectoryStream.PendingIntact(baseDir, files);
    if files == [] {
      assert s.log + [] == s.log;
    } else {
      var e := files[|files| - 1];
      var init := files[..|files| - 1];
      assert e in files;
      assert forall x :: x in init ==> x in files;
      var entry := DirectoryStream.Record(baseDir, e).value + DirectoryStream.Content(e);
      var rest := DirectoryStream.Pending(baseDir, init).bytes;
      FeedAppend(cfg, s, entry, rest);
      ExtractEntry(s, baseDir, e);
      var t := Feed(cfg, s, entry).value;
      assert DirectoryStream.Pending(baseDir, files).bytes == entry + rest;
      assert Feed(cfg, s, entry + rest) == Feed(cfg, t, rest);
      ExtractAll(t, baseDir, init);
      assert RecreatedAll(baseDir, files) == [Recreated(e)] + RecreatedAll(baseDir, init);
      assert t.log == s.log + [Recreated(e)];
      LogAssoc(s.log, [Recreated(e)], RecreatedAll(baseDir, init));
    }
  }

  // ---------------------------------------------------------------------
  // The stream
  // ---------------------------------------------------------------------

  /** What a write returns: the new state, or the exception it throws (the
      state is then unspecified). */
  function Outcome(thrown: Option<Error>, s: State): Result<State>
  {
    match thrown
    case None => Ok(s)
    case Some(x) => Err(x)
  }

  /** readVarLong and readUTF over the buffered record, in the order
      write(int) calls them. */
  method ParseBuffer(body: seq<byte>) returns (r: Result<Meta>)
    ensures r == ParseMeta(body)
  {
    var isFile := ByteAt(body, 0) == 1;
    var readOnly := ByteAt(body, 1) == 1;
    var rest := After(body, 2);
    var time := VarLong.ProcessorReadVarLong(rest);
    if time.Err? {
      return Err(time.error);
    }
    rest := rest[time.value.size..];
    var length: i64 := 0;
    if isFile {
      var size := VarLong.ProcessorReadVarLong(rest);
      if size.Err? {
        return Err(size.error);
      }
      length := size.value.value;
      rest := rest[size.value.size..];
    }
    var name := ReadUtf(rest);
    if name.Err? {
      return Err(name.error);
    }
    return Ok(Meta(isFile, readOnly, time.value.value, length, name.value));
  }

  class ExtractorOutputStream {
    const cfg: Config
    var buffer: seq<byte>
    var remaining: i64
    var sink: Option<Sink>
    var path: seq<byte>
    var content: seq<byte>
    var lastModified: i64
    var readOnly: bool
    /** The effects on the file system so far. */
    var log: seq<Event>

    function Current(): State
      reads this
    {
      State(buffer, remaining, sink, path, content, lastModified, readOnly, log)
    }

    constructor(originalName: Option<seq<byte>>, baseDir: seq<byte>, altName: Option<seq<byte>>)
      ensures cfg == Config(originalName, baseDir, altName) && Current() == Start
    {
      cfg := Config(originalName, baseDir, altName);
      buffer := [];
      remaining := 4;
      sink := None;
      path := [];
      content := [];
      lastModified := 0;
      readOnly := false;
      log := [];
    }

    /** write(int). */
    method Write(b: byte) returns (thrown: Option<Error>)
      modifies this
      ensures Outcome(thrown, Current()) == Step(cfg, old(Current()), b)
    {
      if sink.Some? {
        content := content + [b];
        remaining := Dec(remaining);
        if remaining <= 0 {
          if sink.value == Disk {
            log := log + [Wrote(path, content, lastModified, readOnly)];
          }
          sink := None;
          content := [];
          remaining := 4;
        }
        return None;
      }
      buffer := buffer + [b];
      remaining := Dec(remaining);
      if remaining > 0 {
        return None;
      }
      if |buffer| == 4 {
        var metaLength: int := ReadBigEndian32(buffer);
        remaining := metaLength - 4;
        if remaining > MAX_META {
          return Some(IllegalDirectoryStream);
        }
        buffer := [];
        return None;
      }
      var m := ParseBuffer(buffer);
      if m.Err? {
        return Some(m.error);
      }
      Open(m.value);
      return None;
    }

    /** The end of write(int) once a record is parsed. */
    method Open(m: Meta)
      modifies this
      ensures Current() == Enter(cfg, old(Current()), m)
    {
      lastModified := m.lastModified;
      readOnly := m.readOnly;
      path := cfg.baseDir + [SEPARATOR] + m.name;
      if m.isFile {
        var toDisk := cfg.originalName.None? || BaseName(path) == cfg.originalName.value;
        if cfg.altName.Some? && toDisk {
          path := cfg.baseDir + [SEPARATOR] + cfg.altName.value;
        }
        remaining := m.length;
        if remaining == 0 {
          log := log + [MadeEmpty(path)];
          remaining := 4;
        } else {
          sink := Some(if toDisk then Disk else Memory);
          content := [];
        }
      } else {
        remaining := 4;
        log := log + [MadeDir(path, lastModified, readOnly)];
      }
      buffer := [];
    }

    /** The bulk branch of write(byte[], int, int): bytes handed straight
        to the open sink. */
    method Pass(chunk: seq<byte>)
      requires sink.Some? && |chunk| < remaining
      modifies this
      ensures Ok(Current()) == Feed(cfg, old(Current()), chunk)
    {
      FeedSink(cfg, Current(), chunk);
      content := content + chunk;
      remaining := remaining - |chunk| as i64;
    }

    /** One turn of write(byte[], int, int)'s loop: one byte through
        write(int) while a record is read or the open file's last byte is
        due, otherwise as many bytes as the file takes without its last. */
    method WriteSome(b: array<byte>, i: nat, toWrite: nat) returns (thrown: Option<Error>, n: nat)
      requires 0 < toWrite && i + toWrite <= b.Length
      modifies this
      ensures 1 <= n <= toWrite
      ensures Outcome(thrown, Current()) == Feed(cfg, old(Current()), b[i..i + n])
    {
      n := 1;
      assert b[i..i + 1] == [b[i]];
      if sink.None? || remaining <= 1 {
        FeedOne(cfg, Current(), b[i]);
        thrown := Write(b[i]);
      } else {
        n := if toWrite < remaining - 1 then toWrite else remaining - 1;  // Math.min(toWrite, remaining - 1)
        Pass(b[i..i + n]);
        thrown := None;
      }
    }

    /** write(byte[], int, int): the same as writing the bytes one after
        the other. */
    method WriteBytes(b: array<byte>, off: nat, len: nat) returns (thrown: Option<Error>)
      requires off + len <= b.Length
      modifies this
      ensures Outcome(thrown, Current()) == Feed(cfg, old(Current()), b[off..off + len])
    {
      ghost var start := Current();
      var i := off;
      var toWrite: nat := len;
      while toWrite > 0
        invariant off <= i && i + toWrite == off + len
        invariant Feed(cfg, start, b[off..i]) == Ok(Current())
      {
        var n;
        thrown, n := WriteSome(b, i, toWrite);
        FeedSplit(cfg, start, b[..], off, i, i + n);
        if thrown.Some? {
          FeedSplit(cfg, start, b[..], off, i + n, off + len);
          return;
        }
        i := i + n;
        toWrite := toWrite - n;
      }
      return None;
    }
  }
}
