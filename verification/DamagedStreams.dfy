/** What the reader of a part does with a stream that nobody wrote: cut off, too long, or changed on the way. */
module DamagedStreams {
  import opened Wire
  import opened PartsExchange

  /** Reading goes the same way when more bytes follow, unless it ran out of bytes. */
  ghost predicate Extends<T>(short: Result<Parsed<T>>, long: Result<Parsed<T>>, more: string) {
    match short
    case Ok(p) => long == Ok(Parsed(p.value, p.rest + more))
    case Fail(e) => e == EndOfStream || long == Fail(e)
  }

  lemma BytesExtend(s: string, more: string, n: nat)
    ensures Extends(ReadBytes(s, n), ReadBytes(s + more, n), more)
  {
    if n <= |s| {
      assert (s + more)[..n] == s[..n] && (s + more)[n..] == s[n..] + more;
    }
  }

  lemma WordExtends(s: string, more: string)
    ensures Extends(ReadWord(s), ReadWord(s + more), more)
  {
    hide ReadBytes, FromLittleEndian;
    BytesExtend(s, more, 8);
  }

  lemma {:induction false} VarUIntExtends(s: string, more: string)
    ensures Extends(ReadVarUInt(s), ReadVarUInt(s + more), more)
    decreases |s|
  {
    if s != "" {
      assert (s + more)[1..] == s[1..] + more;
      VarUIntExtends(s[1..], more);
    }
  }

  lemma TextExtends(s: string, more: string)
    ensures Extends(ReadText(s), ReadText(s + more), more)
  {
    hide ReadBytes, ReadVarUInt;
    VarUIntExtends(s, more);
    var size := ReadVarUInt(s);
    if size.Ok? {
      BytesExtend(size.value.rest, more, size.value.value);
    }
  }

  lemma FileExtends(s: string, more: string, h: Hashes)
    ensures Extends(ReadFile(s, h), ReadFile(s + more, h), more)
  {
    hide ReadText, ReadWord, ReadBytes;
    TextExtends(s, more);
    var name := ReadText(s);
    if name.Ok? {
      WordExtends(name.value.rest, more);
      var size := ReadWord(name.value.rest);
      if size.Ok? {
        BytesExtend(size.value.rest, more, size.value.value);
        var content := ReadBytes(size.value.rest, size.value.value);
        if content.Ok? {
          BytesExtend(content.value.rest, more, HASH_LENGTH);
        }
      }
    }
  }

  lemma {:induction false} FilesExtend(s: string, more: string, count: nat, h: Hashes, done: seq<File>)
    ensures Extends(ReadFiles(s, count, h, done), ReadFiles(s + more, count, h, done), more)
    decreases count
  {
    hide ReadFile;
    if count > 0 {
      FileExtends(s, more, h);
      var file := ReadFile(s, h);
      if file.Ok? {
        FilesExtend(file.value.rest, more, count - 1, h, done + [file.value.value]);
      }
    }
  }

  lemma BlockExtends(s: string, more: string, h: Hashes)
    ensures Extends(ReadBlock(s, h), ReadBlock(s + more, h), more)
  {
    hide ReadWord, ReadFiles;
    WordExtends(s, more);
    var count := ReadWord(s);
    if count.Ok? {
      FilesExtend(count.value.rest, more, count.value.value, h, []);
    }
  }

  lemma {:induction false} ProjectionsExtend(s: string, more: string, count: nat, h: Hashes, done: seq<FetchedProjection>)
    ensures Extends(ReadProjections(s, count, h, done), ReadProjections(s + more, count, h, done), more)
    decreases count
  {
    hide ReadText, ReadBlock;
    if count > 0 {
      TextExtends(s, more);
      var name := ReadText(s);
      if name.Ok? {
        BlockExtends(name.value.rest, more, h);
        var files := ReadBlock(name.value.rest, h);
        if files.Ok? {
          ProjectionsExtend(files.value.rest, more, count - 1, h, done + [FetchedProjection(name.value.value, files.value.value)]);
        }
      }
    }
  }

  lemma TtlExtends(s: string, more: string)
    ensures Extends(ReadTtl(s), ReadTtl(s + more), more)
  {
    hide ReadText;
    TextExtends(s, more);
  }

  lemma PartTypeExtends(s: string, more: string)
    ensures Extends(ReadPartType(s), ReadPartType(s + more), more)
  {
    hide ReadText, PartTypeFromText;
    TextExtends(s, more);
  }

  lemma HeaderExtends(s: string, more: string, version: int)
    ensures Extends(ReadHeader(s, version), ReadHeader(s + more, version), more)
  {
    hide ReadWord, ReadTtl, ReadPartType, ReadBytes;
    var size := if version >= WITH_PARTS_SIZE then ReadWord(s) else Ok(Parsed(0, s));
    WordExtends(s, more);
    if size.Ok? {
      var s1 := size.value.rest;
      var ttl := if version >= WITH_PARTS_SIZE && version >= WITH_TTL_INFOS then ReadTtl(s1) else Ok(Parsed("", s1));
      TtlExtends(s1, more);
      if ttl.Ok? {
        var s2 := ttl.value.rest;
        var partType := if version >= WITH_PARTS_TYPE then ReadPartType(s2) else Ok(Parsed(Wide, s2));
        PartTypeExtends(s2, more);
        if partType.Ok? {
          var s3 := partType.value.rest;
          var uuid := if version >= WITH_UUID then ReadBytes(s3, UUID_LENGTH) else Ok(Parsed(NIL_UUID, s3));
          BytesExtend(s3, more, UUID_LENGTH);
          if uuid.Ok? {
            WordExtends(uuid.value.rest, more);
          }
        }
      }
    }
  }

  lemma UniqueIdExtends(s: string, more: string, remote: bool, known: string -> bool)
    ensures Extends(ReadUniqueId(s, remote, known), ReadUniqueId(s + more, remote, known), more)
  {
    hide ReadText;
    TextExtends(s, more);
  }

  /** A part that can be read cannot be read with anything behind it; what fails for want of bytes may do so no longer. */
  ghost predicate Rejects<T>(short: Result<T>, long: Result<T>) {
    match short
    case Ok(_) => long == Fail(ExtraData)
    case Fail(e) => e == EndOfStream || long == Fail(e)
  }

  lemma PartExtends(s: string, more: string, projections: nat, remote: bool, known: string -> bool, h: Hashes)
    requires more != ""
    ensures Rejects(ReadPart(s, projections, remote, known, h), ReadPart(s + more, projections, remote, known, h))
  {
    hide ReadUniqueId, ReadProjections, ReadBlock;
    UniqueIdExtends(s, more, remote, known);
    var id := ReadUniqueId(s, remote, known);
    if id.Ok? {
      ProjectionsExtend(id.value.rest, more, projections, h, []);
      var fetched := ReadProjections(id.value.rest, projections, h, []);
      if fetched.Ok? {
        BlockExtends(fetched.value.rest, more, h);
      }
    }
  }

  /** A response that is accepted is rejected with anything behind it, and every beginning of it is rejected as cut off. */
  lemma OnlyWhole(s: string, more: string, version: int, cookie: string, capability: seq<string>, known: string -> bool, h: Hashes)
    requires more != ""
    ensures
      var part, whole := ReadResponse(s, version, cookie, capability, known, h), ReadResponse(s + more, version, cookie, capability, known, h);
      && (part.Ok? ==> whole == Fail(ExtraData))
      && (whole.Ok? ==> part == Fail(EndOfStream))
  {
    hide ReadHeader, ReadPart;
    HeaderExtends(s, more, version);
    var header := ReadHeader(s, version);
    if header.Ok? {
      PartExtends(header.value.rest, more, header.value.value.projections, cookie != "", known, h);
    }
  }

  /** A file with any hash but that of its content. */
  function Damaged(name: string, content: string, hash: string): string
    requires |content| < WORD
  {
    Text(name) + (Word(|content|) + (content + hash))
  }

  lemma DamagedFile(name: string, content: string, hash: string, h: Hashes, more: string)
    requires |content| < WORD && |hash| == 16 && hash != h.file(content)
    ensures ReadFile(Damaged(name, content, hash) + more, h) == Fail(ChecksumMismatch(name))
  {
    hide ReadText, ReadWord, ReadBytes, Text, Word;
    var afterContent := hash + more;
    var afterSize := content + afterContent;
    var afterName := Word(|content|) + afterSize;
    assert Damaged(name, content, hash) + more == Text(name) + afterName;
    ReadTextWritten(name, afterName);
    ReadWordWritten(|content|, afterSize);
    ReadBytesWritten(content, afterContent);
    ReadBytesWritten(hash, more);
  }

  lemma {:induction false} FilesBefore(files: seq<File>, count: nat, h: Hashes, more: string, done: seq<File>)
    requires ValidFiles(files) && ValidHashes(h) && |files| <= count
    ensures ReadFiles(FilesStream(files, h) + more, count, h, done) == ReadFiles(more, count - |files|, h, done + files)
    decreases |files|
  {
    hide ReadFile, FileStream;
    if files == [] {
      assert FilesStream(files, h) + more == more && done + files == done;
    } else {
      var rest := FilesStream(files[1..], h) + more;
      assert FilesStream(files, h) + more == FileStream(files[0], h) + rest;
      ReadFileWritten(files[0], h, rest);
      FilesBefore(files[1..], count - 1, h, more, done + [files[0]]);
      assert done + [files[0]] + files[1..] == done + files;
    }
  }

  /** Wherever it stands among the files of a block, the damaged file is found and named. */
  lemma DamageIsFound(before: seq<File>, count: nat, name: string, content: string, hash: string, h: Hashes, more: string)
    requires ValidFiles(before) && ValidHashes(h) && |before| < count < WORD
    requires |content| < WORD && |hash| == 16 && hash != h.file(content)
    ensures ReadBlock(Word(count) + (FilesStream(before, h) + (Damaged(name, content, hash) + more)), h) == Fail(ChecksumMismatch(name))
  {
    hide ReadFile, ReadWord, Word, FilesStream, Damaged;
    var damaged := Damaged(name, content, hash) + more;
    ReadWordWritten(count, FilesStream(before, h) + damaged);
    FilesBefore(before, count, h, damaged, []);
    DamagedFile(name, content, hash, h, more);
  }

  /** Which texts stand for the validity of rows and for the type of the part. */
  lemma TextsAccepted(text: string, more: string)
    ensures ReadTtl(Text(text) + more)
         == if "ttl format version: 1\n" <= text then Ok(Parsed(text[|"ttl format version: 1\n"|..], more)) else Fail(BadTtlFormat)
    ensures ReadPartType(Text(text) + more)
         == if text == "Wide" then Ok(Parsed(Wide, more))
            else if text == "Compact" then Ok(Parsed(Compact, more))
            else if text == "Unknown" then Ok(Parsed(Unknown, more))
            else Fail(UnknownPartType)
  {
    ReadTextWritten(text, more);
  }

  /** A cookie names a disk that the receiver offered, and comes from a version that knows the zero copy. */
  lemma CookieAccepted(s: string, version: int, cookie: string, capability: seq<string>, known: string -> bool, h: Hashes)
    requires ReadHeader(s, version).Ok?
    ensures cookie != "" && (cookie !in capability || version < 6)
        ==> ReadResponse(s, version, cookie, capability, known, h) == Fail(UnexpectedCookie)
    ensures cookie == "" || (cookie in capability && version >= 6)
        ==> var header := ReadHeader(s, version).value;
            var part := ReadPart(header.rest, header.value.projections, cookie != "", known, h);
            ReadResponse(s, version, cookie, capability, known, h) == if part.Ok? then Ok((header.value, part.value)) else Fail(part.error)
  {
  }
}
