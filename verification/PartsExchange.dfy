/** Fetching a data part from another replica (DataPartsExchange.cpp): the sender's stream and its reader. */
module PartsExchange {
  import opened Wire

  // ---- protocol versions ----

  const WITH_PARTS_SIZE := 1
  const WITH_TTL_INFOS := 2
  const WITH_PARTS_TYPE := 3
  const WITH_DEFAULT_COMPRESSION := 4
  const WITH_UUID := 5
  const WITH_ZERO_COPY := 6
  const WITH_PROJECTIONS := 7
  const WITH_METADATA_VERSION := 8
  const WITH_COLUMNS_SUBSTREAMS := 9

  const CHECKSUMS := "checksums.txt"
  const COLUMNS := "columns.txt"
  const DEFAULT_COMPRESSION_CODEC := "default_compression_codec.txt"
  const METADATA_VERSION := "metadata_version.txt"
  const COLUMNS_SUBSTREAMS := "columns_substreams.txt"
  const TXN_VERSION := "txn_version.txt"

  const TTL_FORMAT := "ttl format version: 1\n"

  const UUID_LENGTH := 36
  const HASH_LENGTH := 16

  // ---- parts ----

  datatype Checksum = Checksum(size: nat, hash: string)

  type Checksums = map<string, Checksum>

  /** The hash of a file, and the total size and hash of a set of checksums; nothing is assumed of their values. */
  datatype Hashes = Hashes(file: string -> string, total: Checksums -> Checksum)

  ghost predicate ValidHashes(h: Hashes) {
    && (forall content :: |h.file(content)| == HASH_LENGTH)
    && (forall sums :: h.total(sums).size < WORD)
  }

  /** A file of a part: its content, and what describes it on a remote disk. */
  datatype StoredFile = StoredFile(name: string, content: string, metadata: string)

  datatype File = File(name: string, content: string)

  datatype PartType = Wide | Compact | Unknown

  /** A projection is a part of its own, under a name. `disk` lists the files in the order of their names. */
  datatype Part = Part(
    partType: PartType,
    uuid: string,
    ttlInfos: string,
    checksums: Checksums,
    disk: seq<StoredFile>,
    uniqueId: string,
    isProjectionPart: bool,
    projections: seq<Projection>)

  datatype Projection = Projection(name: string, part: Part)

  function PartTypeText(t: PartType): string {
    match t
    case Wide => "Wide"
    case Compact => "Compact"
    case Unknown => "Unknown"
  }

  function PartTypeFromText(t: string): Result<PartType> {
    if t == "Wide" then Ok(Wide)
    else if t == "Compact" then Ok(Compact)
    else if t == "Unknown" then Ok(Unknown)
    else Fail(UnknownPartType)
  }

  ghost predicate ValidDisk(disk: seq<StoredFile>) {
    && |disk| < WORD
    && (forall i, j :: 0 <= i < j < |disk| ==> disk[i].name != disk[j].name)
    && (forall f :: f in disk ==> |f.content| < WORD && |f.metadata| < WORD)
  }

  /** Sizes fit a machine word, and only a base part has projections. */
  ghost predicate ValidPart(p: Part) {
    && !p.isProjectionPart
    && |p.uuid| == UUID_LENGTH
    && ValidDisk(p.disk)
    && |p.projections| < WORD
    && ValidProjections(p.projections)
    && (forall i, j :: 0 <= i < j < |p.projections| ==> p.projections[i].name != p.projections[j].name)
  }

  ghost predicate ValidProjections(projections: seq<Projection>) {
    forall q :: q in projections ==> ValidProjection(q.part)
  }

  ghost predicate ValidProjection(p: Part) {
    p.isProjectionPart && p.projections == [] && ValidDisk(p.disk)
  }

  // ---- which files are sent ----

  predicate EndsWith(s: string, suffix: string) {
    |suffix| <= |s| && s[|s| - |suffix|..] == suffix
  }

  predicate IsProjectionEntry(name: string) {
    EndsWith(name, ".proj")
  }

  function Names(disk: seq<StoredFile>): set<string> {
    set f | f in disk :: f.name
  }

  function FileNamesWithoutChecksums(p: Part): set<string> {
    {CHECKSUMS, COLUMNS}
    + ({DEFAULT_COMPRESSION_CODEC, TXN_VERSION, METADATA_VERSION, COLUMNS_SUBSTREAMS} * Names(p.disk))
  }

  /** Newer auxiliary files are withheld from a receiver that does not know them. */
  predicate Withheld(name: string, version: int) {
    || (version < WITH_DEFAULT_COMPRESSION && name == DEFAULT_COMPRESSION_CODEC)
    || (version < WITH_METADATA_VERSION && name == METADATA_VERSION)
    || (version < WITH_COLUMNS_SUBSTREAMS && name == COLUMNS_SUBSTREAMS)
  }

  function FilesToReplicate(p: Part, version: int): set<string> {
    (set name | name in p.checksums && !IsProjectionEntry(name))
    + (set name | name in FileNamesWithoutChecksums(p) && !Withheld(name, version))
  }

  /** The named files in the order of the disk, with their content or with their remote metadata. */
  function Described(disk: seq<StoredFile>, names: set<string>, remote: bool): (files: seq<File>)
    ensures |files| <= |disk|
    ensures forall f :: f in files ==>
              f.name in names && exists d :: d in disk && f == File(d.name, if remote then d.metadata else d.content)
  {
    if disk == [] then []
    else
      var d := disk[0];
      (if d.name in names then [File(d.name, if remote then d.metadata else d.content)] else [])
      + Described(disk[1..], names, remote)
  }

  function SentFiles(p: Part, version: int, remote: bool): seq<File> {
    Described(p.disk, FilesToReplicate(p, version), remote)
  }

  // ---- the stream ----

  function FileStream(f: File, h: Hashes): string
    requires |f.content| < WORD
  {
    Text(f.name) + (Word(|f.content|) + (f.content + h.file(f.content)))
  }

  ghost predicate ValidFiles(files: seq<File>) {
    forall f :: f in files ==> |f.content| < WORD
  }

  ghost function FilesStream(files: seq<File>, h: Hashes): string
    requires ValidFiles(files)
  {
    if files == [] then "" else FileStream(files[0], h) + FilesStream(files[1..], h)
  }

  /** The number of files, then each of them. */
  ghost function BlockStream(files: seq<File>, h: Hashes): string
    requires ValidFiles(files) && |files| < WORD
  {
    Word(|files|) + FilesStream(files, h)
  }

  lemma SentFilesValid(p: Part, version: int, remote: bool)
    requires ValidDisk(p.disk)
    ensures ValidFiles(SentFiles(p, version, remote)) && |SentFiles(p, version, remote)| < WORD
  {
    var files := SentFiles(p, version, remote);
    forall f | f in files ensures |f.content| < WORD {
      var d :| d in p.disk && f == File(d.name, if remote then d.metadata else d.content);
    }
  }

  ghost function PartBlock(p: Part, h: Hashes, version: int, remote: bool): string
    requires ValidDisk(p.disk)
  {
    SentFilesValid(p, version, remote);
    BlockStream(SentFiles(p, version, remote), h)
  }

  ghost function ProjectionsStream(projections: seq<Projection>, h: Hashes, version: int, remote: bool): string
    requires ValidProjections(projections)
  {
    if projections == [] then ""
    else
      assert projections[0] in projections;
      Text(projections[0].name)
      + (PartBlock(projections[0].part, h, version, remote) + ProjectionsStream(projections[1..], h, version, remote))
  }

  ghost function PartStream(p: Part, h: Hashes, version: int, remote: bool): string
    requires ValidPart(p)
  {
    (if remote then Text(p.uniqueId) else "")
    + ((if version >= WITH_PROJECTIONS then ProjectionsStream(p.projections, h, version, remote) else "")
       + PartBlock(p, h, version, remote))
  }

  ghost function ResponseStream(p: Part, h: Hashes, version: int, remote: bool): string
    requires ValidPart(p) && ValidHashes(h)
  {
    (if version >= WITH_PARTS_SIZE then Word(h.total(p.checksums).size) else "")
    + ((if version >= WITH_TTL_INFOS then Text(TTL_FORMAT + p.ttlInfos) else "")
       + ((if version >= WITH_PARTS_TYPE then Text(PartTypeText(p.partType)) else "")
          + ((if version >= WITH_UUID then p.uuid else "")
             + ((if version >= WITH_PROJECTIONS then Word(|p.projections|) else "")
                + PartStream(p, h, version, remote)))))
  }

  // ---- reading the stream ----

  datatype Header = Header(size: nat, ttlInfos: string, partType: PartType, uuid: string, projections: nat)

  datatype FetchedProjection = FetchedProjection(name: string, files: seq<File>)

  datatype Fetched = Fetched(uniqueId: string, projections: seq<FetchedProjection>, files: seq<File>)

  const NIL_UUID := "00000000-0000-0000-0000-000000000000"

  function ReadFile(s: string, h: Hashes): Result<Parsed<File>> {
    var name :- ReadText(s);
    var size :- ReadWord(name.rest);
    var content :- ReadBytes(size.rest, size.value);
    var expected :- ReadBytes(content.rest, HASH_LENGTH);
    if expected.value != h.file(content.value) then Fail(ChecksumMismatch(name.value))
    else Ok(Parsed(File(name.value, content.value), expected.rest))
  }

  /** `count` more files after the ones already read. */
  function ReadFiles(s: string, count: nat, h: Hashes, done: seq<File>): Result<Parsed<seq<File>>>
    decreases count
  {
    if count == 0 then Ok(Parsed(done, s))
    else
      var file :- ReadFile(s, h);
      ReadFiles(file.rest, count - 1, h, done + [file.value])
  }

  function ReadBlock(s: string, h: Hashes): Result<Parsed<seq<File>>> {
    var count :- ReadWord(s);
    ReadFiles(count.rest, count.value, h, [])
  }

  function ReadProjections(
      s: string, count: nat, h: Hashes, done: seq<FetchedProjection>): Result<Parsed<seq<FetchedProjection>>>
    decreases count
  {
    if count == 0 then Ok(Parsed(done, s))
    else
      var name :- ReadText(s);
      var files :- ReadBlock(name.rest, h);
      ReadProjections(files.rest, count - 1, h, done + [FetchedProjection(name.value, files.value)])
  }

  function ReadTtl(s: string): Result<Parsed<string>> {
    var text :- ReadText(s);
    if TTL_FORMAT <= text.value then Ok(Parsed(text.value[|TTL_FORMAT|..], text.rest)) else Fail(BadTtlFormat)
  }

  function ReadPartType(s: string): Result<Parsed<PartType>> {
    var text :- ReadText(s);
    var partType :- PartTypeFromText(text.value);
    Ok(Parsed(partType, text.rest))
  }

  /** What an older sender leaves out keeps its initial value. */
  function ReadHeader(s: string, version: int): Result<Parsed<Header>> {
    var size :- if version >= WITH_PARTS_SIZE then ReadWord(s) else Ok(Parsed(0, s));
    var ttl :- if version >= WITH_PARTS_SIZE && version >= WITH_TTL_INFOS then ReadTtl(size.rest) else Ok(Parsed("", size.rest));
    var partType :- if version >= WITH_PARTS_TYPE then ReadPartType(ttl.rest) else Ok(Parsed(Wide, ttl.rest));
    var uuid :- if version >= WITH_UUID then ReadBytes(partType.rest, UUID_LENGTH) else Ok(Parsed(NIL_UUID, partType.rest));
    var projections :- if version >= WITH_PROJECTIONS then ReadWord(uuid.rest) else Ok(Parsed(0, uuid.rest));
    Ok(Parsed(Header(size.value, ttl.value, partType.value, uuid.value, projections.value), projections.rest))
  }

  function ReadUniqueId(s: string, remote: bool, known: string -> bool): Result<Parsed<string>> {
    if !remote then Ok(Parsed("", s))
    else
      var id :- ReadText(s);
      if known(id.value) then Ok(id) else Fail(UnknownUniqueId)
  }

  function ReadPart(s: string, projections: nat, remote: bool, known: string -> bool, h: Hashes): Result<Fetched> {
    var id :- ReadUniqueId(s, remote, known);
    var fetched :- ReadProjections(id.rest, projections, h, []);
    var files :- ReadBlock(fetched.rest, h);
    if files.rest != "" then Fail(ExtraData) else Ok(Fetched(id.value, fetched.value, files.value))
  }

  // ---- round trip ----

  lemma ReadFileWritten(f: File, h: Hashes, more: string)
    requires |f.content| < WORD && ValidHashes(h)
    ensures ReadFile(FileStream(f, h) + more, h) == Ok(Parsed(f, more))
  {
    hide ReadText, ReadWord, ReadBytes, Text, Word;
    var hash := h.file(f.content);
    var afterContent := hash + more;
    var afterSize := f.content + afterContent;
    var afterName := Word(|f.content|) + afterSize;
    assert FileStream(f, h) + more == Text(f.name) + afterName;
    ReadTextWritten(f.name, afterName);
    ReadWordWritten(|f.content|, afterSize);
    ReadBytesWritten(f.content, afterContent);
    ReadBytesWritten(hash, more);
  }

  lemma {:induction false} ReadFilesWritten(files: seq<File>, h: Hashes, more: string, done: seq<File>)
    requires ValidFiles(files) && ValidHashes(h)
    ensures ReadFiles(FilesStream(files, h) + more, |files|, h, done) == Ok(Parsed(done + files, more))
  {
    hide ReadFile, FileStream;
    if files == [] {
      assert FilesStream(files, h) + more == more && done + files == done;
    } else {
      var rest := FilesStream(files[1..], h) + more;
      assert FilesStream(files, h) + more == FileStream(files[0], h) + rest;
      ReadFileWritten(files[0], h, rest);
      ReadFilesWritten(files[1..], h, more, done + [files[0]]);
      assert done + [files[0]] + files[1..] == done + files;
    }
  }

  lemma ReadBlockWritten(files: seq<File>, h: Hashes, more: string)
    requires ValidFiles(files) && |files| < WORD && ValidHashes(h)
    ensures ReadBlock(BlockStream(files, h) + more, h) == Ok(Parsed(files, more))
  {
    hide ReadFiles, FilesStream, ReadWord, Word;
    var rest := FilesStream(files, h) + more;
    assert BlockStream(files, h) + more == Word(|files|) + rest;
    ReadWordWritten(|files|, rest);
    ReadFilesWritten(files, h, more, []);
    assert [] + files == files;
  }

  lemma ReadPartBlock(p: Part, h: Hashes, version: int, remote: bool, more: string)
    requires ValidDisk(p.disk) && ValidHashes(h)
    ensures ReadBlock(PartBlock(p, h, version, remote) + more, h) == Ok(Parsed(SentFiles(p, version, remote), more))
  {
    hide ReadBlock, BlockStream, SentFiles;
    SentFilesValid(p, version, remote);
    ReadBlockWritten(SentFiles(p, version, remote), h, more);
  }

  ghost function SentProjections(projections: seq<Projection>, version: int, remote: bool): seq<FetchedProjection> {
    seq(|projections|, i requires 0 <= i < |projections| =>
      FetchedProjection(projections[i].name, SentFiles(projections[i].part, version, remote)))
  }

  lemma {:induction false} ReadProjectionsWritten(
    projections: seq<Projection>, h: Hashes, version: int, remote: bool, more: string, done: seq<FetchedProjection>)
    requires ValidProjections(projections) && ValidHashes(h)
    ensures ReadProjections(ProjectionsStream(projections, h, version, remote) + more, |projections|, h, done)
         == Ok(Parsed(done + SentProjections(projections, version, remote), more))
  {
    hide ReadBlock, PartBlock, SentFiles, ReadText, Text;
    if projections == [] {
      assert ProjectionsStream(projections, h, version, remote) + more == more;
      assert done + SentProjections(projections, version, remote) == done;
    } else {
      var head, tail := projections[0], projections[1..];
      assert head in projections;
      var rest := ProjectionsStream(tail, h, version, remote) + more;
      var block := PartBlock(head.part, h, version, remote) + rest;
      assert ProjectionsStream(projections, h, version, remote) + more == Text(head.name) + block;
      ReadTextWritten(head.name, block);
      ReadPartBlock(head.part, h, version, remote, rest);
      var read := FetchedProjection(head.name, SentFiles(head.part, version, remote));
      ReadProjectionsWritten(tail, h, version, remote, more, done + [read]);
      assert done + [read] + SentProjections(tail, version, remote) == done + SentProjections(projections, version, remote);
    }
  }

  /** The header fields that the version carries; the others keep their initial values. */
  function ExpectedHeader(p: Part, h: Hashes, version: int): Header {
    Header(
      if version >= WITH_PARTS_SIZE then h.total(p.checksums).size else 0,
      if version >= WITH_TTL_INFOS then p.ttlInfos else "",
      if version >= WITH_PARTS_TYPE then p.partType else Wide,
      if version >= WITH_UUID then p.uuid else NIL_UUID,
      if version >= WITH_PROJECTIONS then |p.projections| else 0)
  }

  ghost function ExpectedPart(p: Part, version: int, remote: bool): Fetched {
    Fetched(
      if remote then p.uniqueId else "",
      if version >= WITH_PROJECTIONS then SentProjections(p.projections, version, remote) else [],
      SentFiles(p, version, remote))
  }

  lemma ReadTtlWritten(ttl: string, more: string)
    ensures ReadTtl(Text(TTL_FORMAT + ttl) + more) == Ok(Parsed(ttl, more))
  {
    ReadTextWritten(TTL_FORMAT + ttl, more);
  }

  lemma ReadPartTypeWritten(t: PartType, more: string)
    ensures ReadPartType(Text(PartTypeText(t)) + more) == Ok(Parsed(t, more))
  {
    ReadTextWritten(PartTypeText(t), more);
  }

  lemma ReadHeaderWritten(p: Part, h: Hashes, version: int, remote: bool)
    requires ValidPart(p) && ValidHashes(h)
    ensures ReadHeader(ResponseStream(p, h, version, remote), version)
         == Ok(Parsed(ExpectedHeader(p, h, version), PartStream(p, h, version, remote)))
  {
    hide ReadTtl, ReadPartType, ReadWord, ReadBytes, Text, Word, PartStream;
    var fromParts := PartStream(p, h, version, remote);
    var fromProjections := (if version >= WITH_PROJECTIONS then Word(|p.projections|) else "") + fromParts;
    var fromUuid := (if version >= WITH_UUID then p.uuid else "") + fromProjections;
    var fromType := (if version >= WITH_PARTS_TYPE then Text(PartTypeText(p.partType)) else "") + fromUuid;
    var fromTtl := (if version >= WITH_TTL_INFOS then Text(TTL_FORMAT + p.ttlInfos) else "") + fromType;
    assert "" + fromParts == fromParts && "" + fromProjections == fromProjections && "" + fromUuid == fromUuid;
    assert "" + fromType == fromType && "" + fromTtl == fromTtl;
    ReadWordWritten(h.total(p.checksums).size, fromTtl);
    ReadTtlWritten(p.ttlInfos, fromType);
    ReadPartTypeWritten(p.partType, fromUuid);
    ReadBytesWritten(p.uuid, fromProjections);
    ReadWordWritten(|p.projections|, fromParts);
  }

  lemma ReadPartWritten(p: Part, h: Hashes, version: int, remote: bool, known: string -> bool)
    requires ValidPart(p) && ValidHashes(h)
    ensures ReadPart(PartStream(p, h, version, remote), ExpectedHeader(p, h, version).projections, remote, known, h)
         == if remote && !known(p.uniqueId) then Fail(UnknownUniqueId) else Ok(ExpectedPart(p, version, remote))
  {
    hide ReadProjections, ReadBlock, ProjectionsStream, PartBlock, SentProjections, SentFiles, ReadText, Text;
    var block := PartBlock(p, h, version, remote);
    var body := (if version >= WITH_PROJECTIONS then ProjectionsStream(p.projections, h, version, remote) else "") + block;
    if remote {
      ReadTextWritten(p.uniqueId, body);
    } else {
      assert "" + body == body;
    }
    if version >= WITH_PROJECTIONS {
      ReadProjectionsWritten(p.projections, h, version, remote, block, []);
      assert [] + SentProjections(p.projections, version, remote) == SentProjections(p.projections, version, remote);
    } else {
      assert body == block;
      ReadNoProjections(block, h);
    }
    ReadPartBlock(p, h, version, remote, "");
    assert block + "" == block;
  }

  lemma ReadNoProjections(s: string, h: Hashes)
    ensures ReadProjections(s, 0, h, []) == Ok(Parsed([], s))
  {
  }

  // ---- negotiation ----

  function Min(a: int, b: int): int {
    if a < b then a else b
  }

  /** The version that the sender announces. */
  function ServerVersion(clientVersion: int): int {
    Min(clientVersion, WITH_COLUMNS_SUBSTREAMS)
  }

  const DELIMITER := ", "

  function Joined(capability: seq<string>): string {
    if capability == [] then ""
    else if |capability| == 1 then capability[0]
    else capability[0] + (DELIMITER + Joined(capability[1..]))
  }

  predicate DelimiterAt(s: string, i: nat) {
    i + 2 <= |s| && s[i] == ',' && s[i + 1] == ' '
  }

  /** The first delimiter from `i` on, or the length of the string. */
  function Find(s: string, i: nat): (r: nat)
    requires i <= |s|
    ensures i <= r <= |s|
    ensures r < |s| ==> DelimiterAt(s, r)
    ensures forall k :: i <= k < r ==> !DelimiterAt(s, k)
    decreases |s| - i
  {
    if i == |s| || DelimiterAt(s, i) then i else Find(s, i + 1)
  }

  function Tokens(s: string): seq<string>
    decreases |s|
  {
    var end := Find(s, 0);
    if end == |s| then [s] else [s[..end]] + Tokens(s[end + 2..])
  }

  method FindDelimiter(s: string, start: nat) returns (end: nat)
    requires start <= |s|
    ensures end == start + Find(s[start..], 0)
  {
    end := start;
    while end < |s| && !(end + 2 <= |s| && s[end] == ',' && s[end + 1] == ' ')
      invariant start <= end <= |s|
      invariant Find(s[start..], 0) == Find(s[start..], end - start)
    {
      assert !DelimiterAt(s[start..], end - start);
      end := end + 1;
    }
    assert end < |s| ==> DelimiterAt(s[start..], end - start);
  }

  method TokenizeCapabilities(remoteFsMetadata: string) returns (capabilities: seq<string>)
    ensures capabilities == Tokens(remoteFsMetadata)
  {
    hide Tokens, Find, DelimiterAt;
    capabilities := [];
    var start := 0;
    var end := FindDelimiter(remoteFsMetadata, start);
    assert remoteFsMetadata[0..] == remoteFsMetadata;
    while end < |remoteFsMetadata|
      invariant start <= end <= |remoteFsMetadata|
      invariant end == start + Find(remoteFsMetadata[start..], 0)
      invariant capabilities + Tokens(remoteFsMetadata[start..]) == Tokens(remoteFsMetadata)
      decreases |remoteFsMetadata| - end
    {
      TokensStep(remoteFsMetadata, start, end);
      capabilities := capabilities + [remoteFsMetadata[start..end]];
      start := end + 2;
      end := FindDelimiter(remoteFsMetadata, start);
    }
    TokensStep(remoteFsMetadata, start, end);
    capabilities := capabilities + [remoteFsMetadata[start..]];
  }

  lemma TokensStep(s: string, start: nat, end: nat)
    requires start <= end <= |s| && end == start + Find(s[start..], 0)
    ensures end < |s| ==> end + 2 <= |s| && Tokens(s[start..]) == [s[start..end]] + Tokens(s[end + 2..])
    ensures end == |s| ==> Tokens(s[start..]) == [s[start..]]
  {
    var rest := s[start..];
    if end < |s| {
      assert DelimiterAt(rest, end - start);
      assert rest[..end - start] == s[start..end] && rest[end - start + 2..] == s[end + 2..];
    }
  }

  predicate Plain(capability: string) {
    forall i :: 0 <= i < |capability| ==> !DelimiterAt(capability, i)
  }

  /** The sender's tokens are the receiver's capabilities again. */
  lemma {:induction false} TokensJoined(capability: seq<string>)
    requires capability != [] && forall c :: c in capability ==> Plain(c)
    ensures Tokens(Joined(capability)) == capability
  {
    var s, first := Joined(capability), capability[0];
    assert Plain(first);
    if |capability| == 1 {
    } else {
      assert DelimiterAt(s, |first|);
      forall k | 0 <= k < |first| ensures !DelimiterAt(s, k) {
        assert !DelimiterAt(first, k);
      }
      assert s[..|first|] == first && s[|first| + 2..] == Joined(capability[1..]);
      TokensJoined(capability[1..]);
      assert capability == [first] + capability[1..];
    }
  }

  /** The sender transfers metadata instead of content when the receiver can use the disk that holds the part. */
  predicate SendsRemote(
      clientVersion: int, capabilities: seq<string>, allowed: bool, supported: bool, diskType: string) {
    allowed && clientVersion >= WITH_ZERO_COPY && supported && diskType in capabilities
  }

  /** The receiver accepts the sender's choice. */
  lemma RemoteIsExpected(clientVersion: int, capability: seq<string>, allowed: bool, supported: bool, diskType: string)
    requires diskType != "" && forall c :: c in capability ==> Plain(c)
    ensures SendsRemote(clientVersion, Tokens(Joined(capability)), allowed, supported, diskType)
       <==> allowed && clientVersion >= WITH_ZERO_COPY && supported && diskType in capability
  {
    if capability == [] {
      assert Tokens("") == [""];
    } else {
      TokensJoined(capability);
    }
  }

  function ReadResponse(
    s: string, version: int, cookie: string, capability: seq<string>, known: string -> bool, h: Hashes): Result<(Header, Fetched)>
  {
    var header :- ReadHeader(s, version);
    if cookie != "" && (cookie !in capability || version < WITH_ZERO_COPY) then Fail(UnexpectedCookie)
    else
      var part :- ReadPart(header.rest, header.value.projections, cookie != "", known, h);
      Ok((header.value, part))
  }

  lemma SameForServerVersion(p: Part, h: Hashes, clientVersion: int, remote: bool)
    requires ValidPart(p) && ValidHashes(h)
    ensures ResponseStream(p, h, clientVersion, remote) == ResponseStream(p, h, ServerVersion(clientVersion), remote)
    ensures ExpectedHeader(p, h, clientVersion) == ExpectedHeader(p, h, ServerVersion(clientVersion))
    ensures ExpectedPart(p, clientVersion, remote) == ExpectedPart(p, ServerVersion(clientVersion), remote)
  {
    var v := ServerVersion(clientVersion);
    SameBlock(p, h, clientVersion, remote);
    SameProjections(p.projections, h, clientVersion, remote);
  }

  lemma SameBlock(p: Part, h: Hashes, clientVersion: int, remote: bool)
    requires ValidDisk(p.disk)
    ensures SentFiles(p, clientVersion, remote) == SentFiles(p, ServerVersion(clientVersion), remote)
    ensures PartBlock(p, h, clientVersion, remote) == PartBlock(p, h, ServerVersion(clientVersion), remote)
  {
    assert FilesToReplicate(p, clientVersion) == FilesToReplicate(p, ServerVersion(clientVersion));
  }

  lemma {:induction false} SameProjections(projections: seq<Projection>, h: Hashes, clientVersion: int, remote: bool)
    requires ValidProjections(projections)
    ensures ProjectionsStream(projections, h, clientVersion, remote) == ProjectionsStream(projections, h, ServerVersion(clientVersion), remote)
    ensures SentProjections(projections, clientVersion, remote) == SentProjections(projections, ServerVersion(clientVersion), remote)
  {
    hide PartBlock, SentFiles, ServerVersion, ValidDisk, Text;
    if projections != [] {
      assert projections[0] in projections;
      SameBlock(projections[0].part, h, clientVersion, remote);
      SameProjections(projections[1..], h, clientVersion, remote);
      forall i | 0 <= i < |projections|
        ensures SentProjections(projections, clientVersion, remote)[i] == SentProjections(projections, ServerVersion(clientVersion), remote)[i]
      {
        SameBlock(projections[i].part, h, clientVersion, remote);
      }
    }
  }

  /**
   * For every version, part and zero-copy choice: the reader that follows the announced version gets the fields, the
   * projections and the files that the version carries, and reads the stream to its end.
   */
  lemma ExchangeRoundTrip(
    p: Part, h: Hashes, clientVersion: int, capability: seq<string>, allowed: bool, supported: bool, diskType: string, known: string -> bool)
    requires ValidPart(p) && ValidHashes(h)
    requires diskType != "" && forall c :: c in capability ==> Plain(c)
    ensures
      var remote := SendsRemote(clientVersion, Tokens(Joined(capability)), allowed, supported, diskType);
      ReadResponse(ResponseStream(p, h, clientVersion, remote), ServerVersion(clientVersion), if remote then diskType else "", capability, known, h)
      == if remote && !known(p.uniqueId) then Fail(UnknownUniqueId)
         else Ok((ExpectedHeader(p, h, clientVersion), ExpectedPart(p, clientVersion, remote)))
  {
    var remote := SendsRemote(clientVersion, Tokens(Joined(capability)), allowed, supported, diskType);
    var version := ServerVersion(clientVersion);
    RemoteIsExpected(clientVersion, capability, allowed, supported, diskType);
    SameForServerVersion(p, h, clientVersion, remote);
    hide ReadHeader, ReadPart, ResponseStream, PartStream, ExpectedHeader, ExpectedPart, Tokens, Joined, Find, Plain, ValidPart, ValidHashes;
    ReadHeaderWritten(p, h, version, remote);
    ReadPartWritten(p, h, version, remote, known);
  }

  /** The checksummed files that are no projections, three files that every version gets, and the auxiliary files that newer
      versions know. */
  predicate IsFor(name: string, checksums: Checksums, version: int) {
    || (name in checksums && !(|name| >= 5 && name[|name| - 5..] == ".proj"))
    || name == "checksums.txt" || name == "columns.txt" || name == "txn_version.txt"
    || (name == "default_compression_codec.txt" && version >= 4)
    || (name == "metadata_version.txt" && version >= 8)
    || (name == "columns_substreams.txt" && version >= 9)
  }

  /** Exactly these files of the disk are sent, each once, with content or with remote metadata, and nothing else. */
  lemma SentExactly(p: Part, version: int, remote: bool, d: StoredFile)
    requires ValidDisk(p.disk) && d in p.disk
    ensures IsFor(d.name, p.checksums, version) <==> File(d.name, if remote then d.metadata else d.content) in SentFiles(p, version, remote)
    ensures d.name in FilesToReplicate(p, version) <==> IsFor(d.name, p.checksums, version)
    ensures DistinctNames(SentFiles(p, version, remote))
    ensures forall f :: f in SentFiles(p, version, remote) ==>
              exists e :: e in p.disk && f == File(e.name, if remote then e.metadata else e.content)
  {
    assert d.name in Names(p.disk);
    assert d.name in FilesToReplicate(p, version) <==> IsFor(d.name, p.checksums, version);
    if d.name in FilesToReplicate(p, version) {
      DescribedHas(p.disk, FilesToReplicate(p, version), remote, d);
    }
    DescribedDistinct(p.disk, FilesToReplicate(p, version), remote);
  }

  lemma {:induction false} DescribedHas(disk: seq<StoredFile>, names: set<string>, remote: bool, d: StoredFile)
    requires d in disk && d.name in names
    ensures File(d.name, if remote then d.metadata else d.content) in Described(disk, names, remote)
  {
    if d != disk[0] {
      DescribedHas(disk[1..], names, remote, d);
    }
  }

  ghost predicate DistinctNames(files: seq<File>) {
    forall i, j :: 0 <= i < j < |files| ==> files[i].name != files[j].name
  }

  lemma {:induction false} DescribedDistinct(disk: seq<StoredFile>, names: set<string>, remote: bool)
    requires forall i, j :: 0 <= i < j < |disk| ==> disk[i].name != disk[j].name
    ensures DistinctNames(Described(disk, names, remote))
  {
    if disk != [] {
      var tail := Described(disk[1..], names, remote);
      DescribedDistinct(disk[1..], names, remote);
      forall i | 0 <= i < |tail| ensures tail[i].name != disk[0].name {
        var d :| d in disk[1..] && tail[i] == File(d.name, if remote then d.metadata else d.content);
      }
    }
  }

  // ---- checksums ----

  function AddFiles(files: seq<File>, skipped: set<string>, h: Hashes, sums: Checksums): Checksums
    decreases |files|
  {
    if files == [] then sums
    else
      var f := files[0];
      AddFiles(files[1..], skipped, h, if f.name in skipped then sums else sums[f.name := Checksum(|f.content|, h.file(f.content))])
  }

  /** Projection entries that were not transferred are taken over from the part's own checksums. */
  function AddUnlisted(own: Checksums, sums: Checksums): Checksums {
    sums + (map name | name in own && IsProjectionEntry(name) && name !in sums :: own[name])
  }

  /** The checksums that the sender collects while it sends the part. */
  function SenderSums(p: Part, h: Hashes, version: int, remote: bool, sendProjections: bool): Checksums
    decreases sendProjections, 1
  {
    var sums := AddUnlisted(p.checksums, SenderProjectionSums(p.projections, p.checksums, h, version, remote, sendProjections, map[]));
    AddFiles(SentFiles(p, version, remote), FileNamesWithoutChecksums(p), h, sums)
  }

  function SenderProjectionSums(
    projections: seq<Projection>, own: Checksums, h: Hashes, version: int, remote: bool, sendProjections: bool, sums: Checksums): Checksums
    decreases sendProjections, 0, 1 + |projections|
  {
    if projections == [] then sums
    else
      SenderProjectionSums(projections[1..], own, h, version, remote, sendProjections,
        WithEntry(projections[0], own, h, version, remote, sendProjections, sums))
  }

  /** The entry of one projection: of what was sent, or else the part's own. */
  function WithEntry(
    q: Projection, own: Checksums, h: Hashes, version: int, remote: bool, sendProjections: bool, sums: Checksums): Checksums
    decreases sendProjections, 0, 0
  {
    var entry := q.name + ".proj";
    if sendProjections then sums[entry := h.total(SenderSums(q.part, h, version, remote, false))]
    else if entry in own then sums[entry := own[entry]]
    else sums
  }

  const NOT_CHECKSUMMED := {CHECKSUMS, COLUMNS, COLUMNS_SUBSTREAMS, DEFAULT_COMPRESSION_CODEC, METADATA_VERSION}

  function ReceivedFileSums(files: seq<File>, h: Hashes, sums: Checksums): Checksums {
    AddFiles(files, NOT_CHECKSUMMED, h, sums)
  }

  function ReceivedProjectionSums(projections: seq<FetchedProjection>, h: Hashes, sums: Checksums): Checksums
    decreases |projections|
  {
    if projections == [] then sums
    else
      var entry := projections[0].name + ".proj";
      ReceivedProjectionSums(projections[1..], h, sums[entry := h.total(ReceivedFileSums(projections[0].files, h, map[]))])
  }

  /** What the receiver compares with the checksums that it loads from the part, `own`. */
  function ReceiverSums(f: Fetched, h: Hashes, own: Checksums): Checksums {
    AddUnlisted(own, ReceivedFileSums(f.files, h, ReceivedProjectionSums(f.projections, h, map[])))
  }

  predicate HasTransactionFile(p: Part) {
    TXN_VERSION in Names(p.disk)
  }

  /** A part for which sender and receiver sum up the same files. */
  predicate Unremarkable(p: Part) {
    !HasTransactionFile(p) && forall name :: name in p.checksums ==> !IsProjectionEntry(name)
  }

  /** Both sides enter the same total for a projection. */
  ghost predicate SameTotal(p: Part, h: Hashes, version: int, remote: bool) {
    h.total(SenderSums(p, h, version, remote, false)) == h.total(ReceivedFileSums(SentFiles(p, version, remote), h, map[]))
  }

  ghost predicate SameTotals(projections: seq<Projection>, h: Hashes, version: int, remote: bool) {
    forall q :: q in projections ==> SameTotal(q.part, h, version, remote)
  }

  ghost predicate NoProjectionEntry(files: seq<File>) {
    forall f :: f in files ==> !IsProjectionEntry(f.name)
  }

  lemma FixedNamesAreNoEntries()
    ensures !IsProjectionEntry(CHECKSUMS) && !IsProjectionEntry(COLUMNS) && !IsProjectionEntry(DEFAULT_COMPRESSION_CODEC)
    ensures !IsProjectionEntry(TXN_VERSION) && !IsProjectionEntry(METADATA_VERSION) && !IsProjectionEntry(COLUMNS_SUBSTREAMS)
  {
    assert CHECKSUMS[|CHECKSUMS| - 1] == 't' && COLUMNS[|COLUMNS| - 1] == 't';
    assert DEFAULT_COMPRESSION_CODEC[|DEFAULT_COMPRESSION_CODEC| - 1] == 't' && TXN_VERSION[|TXN_VERSION| - 1] == 't';
    assert METADATA_VERSION[|METADATA_VERSION| - 1] == 't' && COLUMNS_SUBSTREAMS[|COLUMNS_SUBSTREAMS| - 1] == 't';
    assert forall s: string :: IsProjectionEntry(s) ==> s[|s| - 5..][4] == 'j' == s[|s| - 1];
  }

  lemma {:induction false} SkipsAgree(files: seq<File>, a: set<string>, b: set<string>, h: Hashes, sums: Checksums)
    requires forall f :: f in files ==> (f.name in a <==> f.name in b)
    ensures AddFiles(files, a, h, sums) == AddFiles(files, b, h, sums)
    decreases |files|
  {
    if files != [] {
      var f := files[0];
      SkipsAgree(files[1..], a, b, h, if f.name in a then sums else sums[f.name := Checksum(|f.content|, h.file(f.content))]);
    }
  }

  lemma UnlistedUpdate(own: Checksums, sums: Checksums, name: string, sum: Checksum)
    requires !IsProjectionEntry(name)
    ensures AddUnlisted(own, sums[name := sum]) == AddUnlisted(own, sums)[name := sum]
  {
  }

  lemma {:induction false} UnlistedCommutes(
      own: Checksums, files: seq<File>, skipped: set<string>, h: Hashes, sums: Checksums)
    requires NoProjectionEntry(files)
    ensures AddUnlisted(own, AddFiles(files, skipped, h, sums)) == AddFiles(files, skipped, h, AddUnlisted(own, sums))
    decreases |files|
  {
    hide AddUnlisted, IsProjectionEntry;
    if files != [] {
      var f := files[0];
      var sum := Checksum(|f.content|, h.file(f.content));
      UnlistedUpdate(own, sums, f.name, sum);
      UnlistedCommutes(own, files[1..], skipped, h, if f.name in skipped then sums else sums[f.name := sum]);
    }
  }

  /** Without a transaction file both sides leave the same sent files out. */
  lemma SkipsAgreeOnSent(p: Part, version: int, remote: bool, h: Hashes, sums: Checksums)
    requires !HasTransactionFile(p)
    ensures AddFiles(SentFiles(p, version, remote), FileNamesWithoutChecksums(p), h, sums)
         == AddFiles(SentFiles(p, version, remote), NOT_CHECKSUMMED, h, sums)
  {
    var files := SentFiles(p, version, remote);
    forall f | f in files ensures f.name in FileNamesWithoutChecksums(p) <==> f.name in NOT_CHECKSUMMED {
      var d :| d in p.disk && f == File(d.name, if remote then d.metadata else d.content);
      assert d.name in Names(p.disk);
    }
    SkipsAgree(files, FileNamesWithoutChecksums(p), NOT_CHECKSUMMED, h, sums);
  }

  lemma {:induction false} ProjectionSumsAgree(
    projections: seq<Projection>, own: Checksums, h: Hashes, version: int, remote: bool, sums: Checksums)
    requires SameTotals(projections, h, version, remote)
    ensures SenderProjectionSums(projections, own, h, version, remote, true, sums)
         == ReceivedProjectionSums(SentProjections(projections, version, remote), h, sums)
    decreases |projections|
  {
    if projections != [] {
      var q := projections[0];
      assert q in projections && SameTotal(q.part, h, version, remote);
      var sent := SentProjections(projections, version, remote);
      assert sent[1..] == SentProjections(projections[1..], version, remote);
      var total := h.total(ReceivedFileSums(sent[0].files, h, map[]));
      ProjectionSumsAgree(projections[1..], own, h, version, remote, sums[q.name + ".proj" := total]);
    }
  }

  lemma EntriesDiffer(a: string, b: string)
    ensures a + ".proj" == b + ".proj" ==> a == b
    ensures IsProjectionEntry(a + ".proj")
  {
    if a + ".proj" == b + ".proj" {
      assert a == (a + ".proj")[..|a|] && b == (b + ".proj")[..|b|];
    }
  }

  ghost predicate NamesOthers(projections: seq<Projection>, name: string) {
    forall q :: q in projections ==> q.name != name
  }

  /** What later projections do not overwrite. */
  lemma {:induction false} ProjectionSumsKeep(
    projections: seq<Projection>, own: Checksums, h: Hashes, version: int, remote: bool, s: Checksums, r: Checksums, name: string)
    requires NamesOthers(projections, name) && name + ".proj" in s && name + ".proj" in r
    ensures
      var a := SenderProjectionSums(projections, own, h, version, remote, true, s);
      var b := ReceivedProjectionSums(SentProjections(projections, version, remote), h, r);
      && name + ".proj" in a && a[name + ".proj"] == s[name + ".proj"]
      && name + ".proj" in b && b[name + ".proj"] == r[name + ".proj"]
    decreases |projections|
  {
    hide SenderSums, ReceivedFileSums, IsProjectionEntry;
    if projections != [] {
      var q := projections[0];
      assert q in projections;
      EntriesDiffer(q.name, name);
      var sent := SentProjections(projections, version, remote);
      assert sent[1..] == SentProjections(projections[1..], version, remote);
      ProjectionSumsKeep(projections[1..], own, h, version, remote,
        s[q.name + ".proj" := h.total(SenderSums(q.part, h, version, remote, false))],
        r[q.name + ".proj" := h.total(ReceivedFileSums(SentFiles(q.part, version, remote), h, map[]))], name);
    }
  }

  /** The totals that both sides enter for one of the projections. */
  lemma {:induction false} ProjectionSumsAt(
    projections: seq<Projection>, own: Checksums, h: Hashes, version: int, remote: bool, s: Checksums, r: Checksums, i: nat)
    requires i < |projections|
    requires forall j, k :: 0 <= j < k < |projections| ==> projections[j].name != projections[k].name
    ensures
      var a := SenderProjectionSums(projections, own, h, version, remote, true, s);
      var b := ReceivedProjectionSums(SentProjections(projections, version, remote), h, r);
      var entry, part := projections[i].name + ".proj", projections[i].part;
      && entry in a && a[entry] == h.total(SenderSums(part, h, version, remote, false))
      && entry in b && b[entry] == h.total(ReceivedFileSums(SentFiles(part, version, remote), h, map[]))
    decreases |projections|
  {
    hide SenderSums, ReceivedFileSums, SentFiles;
    var q, rest := projections[0], projections[1..];
    var sent := SentProjections(projections, version, remote);
    assert sent[1..] == SentProjections(rest, version, remote);
    var s' := s[q.name + ".proj" := h.total(SenderSums(q.part, h, version, remote, false))];
    var r' := r[q.name + ".proj" := h.total(ReceivedFileSums(SentFiles(q.part, version, remote), h, map[]))];
    assert forall j :: 0 <= j < |rest| ==> rest[j] == projections[j + 1];
    if i == 0 {
      ProjectionSumsKeep(rest, own, h, version, remote, s', r', q.name);
    } else {
      ProjectionSumsAt(rest, own, h, version, remote, s', r', i - 1);
    }
  }

  /** Entries of projections that are not sent: all of them are taken over, from one place or the other. */
  lemma {:induction false} UnsentProjectionSums(
      projections: seq<Projection>, own: Checksums, h: Hashes, version: int, remote: bool, sums: Checksums)
    requires forall name :: name in sums ==> name in own && IsProjectionEntry(name) && sums[name] == own[name]
    ensures AddUnlisted(own, SenderProjectionSums(projections, own, h, version, remote, false, sums)) == AddUnlisted(own, map[])
    decreases |projections|
  {
    if projections != [] {
      var entry := projections[0].name + ".proj";
      assert IsProjectionEntry(entry);
      UnsentProjectionSums(projections[1..], own, h, version, remote, if entry in own then sums[entry := own[entry]] else sums);
    } else {
      var a, b := AddUnlisted(own, sums), AddUnlisted(own, map[]);
      assert a.Keys == b.Keys;
    }
  }

  lemma {:induction false} AddFilesKeeps(
      files: seq<File>, skipped: set<string>, h: Hashes, sums: Checksums, name: string)
    ensures name in sums ==> name in AddFiles(files, skipped, h, sums)
    ensures name !in skipped && (exists f :: f in files && f.name == name) ==> name in AddFiles(files, skipped, h, sums)
    ensures name in skipped && name !in sums ==> name !in AddFiles(files, skipped, h, sums)
    decreases |files|
  {
    if files != [] {
      var f := files[0];
      AddFilesKeeps(files[1..], skipped, h, if f.name in skipped then sums else sums[f.name := Checksum(|f.content|, h.file(f.content))], name);
    }
  }

  lemma {:induction false} ProjectionSumsAreEntries(
    projections: seq<Projection>, own: Checksums, h: Hashes, version: int, remote: bool, send: bool, sums: Checksums)
    requires forall name :: name in sums ==> IsProjectionEntry(name)
    ensures forall name :: name in SenderProjectionSums(projections, own, h, version, remote, send, sums) ==> IsProjectionEntry(name)
    decreases |projections|
  {
    if projections != [] {
      var entry := projections[0].name + ".proj";
      assert IsProjectionEntry(entry);
      ProjectionSumsAreEntries(projections[1..], own, h, version, remote, send,
        WithEntry(projections[0], own, h, version, remote, send, sums));
    }
  }

  lemma {:induction false} AddFilesAt(
      files: seq<File>, skipped: set<string>, h: Hashes, sums: Checksums, name: string)
    requires forall f :: f in files ==> f.name != name
    ensures name in AddFiles(files, skipped, h, sums) <==> name in sums
    ensures name in sums ==> AddFiles(files, skipped, h, sums)[name] == sums[name]
    decreases |files|
  {
    if files != [] {
      var f := files[0];
      AddFilesAt(files[1..], skipped, h, if f.name in skipped then sums else sums[f.name := Checksum(|f.content|, h.file(f.content))], name);
    }
  }

  lemma NoEntrySent(p: Part, version: int, remote: bool)
    ensures NoProjectionEntry(SentFiles(p, version, remote))
  {
    forall name | name in FileNamesWithoutChecksums(p) ensures !IsProjectionEntry(name) {
      FixedNamesAreNoEntries();
    }
  }

  /** A transaction file is sent but left out by the sender alone. */
  lemma TransactionFileDiffers(p: Part, h: Hashes, version: int, remote: bool, received: Checksums, sent: Checksums)
    requires ValidDisk(p.disk) && HasTransactionFile(p) && TXN_VERSION !in sent
    ensures AddFiles(SentFiles(p, version, remote), NOT_CHECKSUMMED, h, received)
         != AddFiles(SentFiles(p, version, remote), FileNamesWithoutChecksums(p), h, sent)
  {
    hide AddFiles, Described, ValidDisk;
    var files := SentFiles(p, version, remote);
    var d :| d in p.disk && d.name == TXN_VERSION;
    assert TXN_VERSION in FileNamesWithoutChecksums(p) && !Withheld(TXN_VERSION, version);
    DescribedHas(p.disk, FilesToReplicate(p, version), remote, d);
    assert TXN_VERSION !in NOT_CHECKSUMMED;
    AddFilesKeeps(files, NOT_CHECKSUMMED, h, received, TXN_VERSION);
    AddFilesKeeps(files, FileNamesWithoutChecksums(p), h, sent, TXN_VERSION);
  }

  /** For one projection both sides sum up the same if and only if it has neither a transaction file nor projection entries
      of its own. */
  lemma ProjectionMapsAgree(p: Part, h: Hashes, version: int, remote: bool)
    requires ValidProjection(p)
    ensures SenderSums(p, h, version, remote, false) == ReceivedFileSums(SentFiles(p, version, remote), h, map[]) <==> Unremarkable(p)
  {
    hide IsProjectionEntry, ValidDisk, Described, AddFiles;
    var files, unlisted := SentFiles(p, version, remote), AddUnlisted(p.checksums, map[]);
    FixedNamesAreNoEntries();
    if HasTransactionFile(p) {
      TransactionFileDiffers(p, h, version, remote, map[], unlisted);
    } else if Unremarkable(p) {
      assert unlisted == map[];
      SkipsAgreeOnSent(p, version, remote, h, map[]);
    } else {
      var entry :| entry in p.checksums && IsProjectionEntry(entry);
      NoEntrySent(p, version, remote);
      AddFilesAt(files, NOT_CHECKSUMMED, h, map[], entry);
      AddFilesAt(files, FileNamesWithoutChecksums(p), h, unlisted, entry);
      assert entry in unlisted;
    }
  }

  /** When the receiver collects what the sender collected: no transaction file, and the same total for each projection
      that was sent. */
  ghost predicate ChecksumsMatch(p: Part, h: Hashes, version: int, remote: bool) {
    !HasTransactionFile(p) && (version >= WITH_PROJECTIONS ==> SameTotals(p.projections, h, version, remote))
  }

  /**
   * After a complete transfer both sides have collected the same checksums, so that the receiver's comparison succeeds
   * whenever the sender's did, if and only if the part has no transaction file and the totals of its projections agree.
   */
  lemma ChecksumsAgree(p: Part, h: Hashes, version: int, remote: bool)
    requires ValidPart(p)
    ensures (ReceiverSums(ExpectedPart(p, version, remote), h, p.checksums)
         == SenderSums(p, h, version, remote, version >= WITH_PROJECTIONS)) <==> ChecksumsMatch(p, h, version, remote)
    ensures version >= WITH_PROJECTIONS && (forall q :: q in p.projections ==> Unremarkable(q.part)) ==>
              SameTotals(p.projections, h, version, remote)
  {
    hide SenderSums, ReceiverSums, ExpectedPart, ValidDisk, ReceivedFileSums, SentFiles, HasTransactionFile, Unremarkable;
    forall q | q in p.projections && Unremarkable(q.part) ensures SameTotal(q.part, h, version, remote) {
      assert ValidProjection(q.part);
      ProjectionMapsAgree(q.part, h, version, remote);
    }
    if ChecksumsMatch(p, h, version, remote) {
      MatchingSumsAgree(p, h, version, remote);
    } else if HasTransactionFile(p) {
      TransactionFileSpoils(p, h, version, remote);
    } else {
      var i :| 0 <= i < |p.projections| && !SameTotal(p.projections[i].part, h, version, remote);
      TotalSpoils(p, h, version, remote, i);
    }
  }

  lemma MatchingSumsAgree(p: Part, h: Hashes, version: int, remote: bool)
    requires ValidPart(p) && ChecksumsMatch(p, h, version, remote)
    ensures ReceiverSums(ExpectedPart(p, version, remote), h, p.checksums)
         == SenderSums(p, h, version, remote, version >= WITH_PROJECTIONS)
  {
    var files, send, own := SentFiles(p, version, remote), version >= WITH_PROJECTIONS, p.checksums;
    hide AddFiles, AddUnlisted, IsProjectionEntry, Described, SenderProjectionSums, ReceivedProjectionSums, FilesToReplicate;
    var received := ReceivedProjectionSums(ExpectedPart(p, version, remote).projections, h, map[]);
    NoEntrySent(p, version, remote);
    UnlistedCommutes(own, files, NOT_CHECKSUMMED, h, received);
    if send {
      ProjectionSumsAgree(p.projections, own, h, version, remote, map[]);
    } else {
      UnsentProjectionSums(p.projections, own, h, version, remote, map[]);
      NothingReceived(h);
    }
    SkipsAgreeOnSent(p, version, remote, h, AddUnlisted(own, received));
  }

  lemma NothingReceived(h: Hashes)
    ensures ReceivedProjectionSums([], h, map[]) == map[]
  {
  }

  lemma TransactionFileSpoils(p: Part, h: Hashes, version: int, remote: bool)
    requires ValidPart(p) && HasTransactionFile(p)
    ensures ReceiverSums(ExpectedPart(p, version, remote), h, p.checksums)
         != SenderSums(p, h, version, remote, version >= WITH_PROJECTIONS)
  {
    var files, send, own := SentFiles(p, version, remote), version >= WITH_PROJECTIONS, p.checksums;
    hide AddFiles, SenderProjectionSums, ReceivedProjectionSums, IsProjectionEntry, Described, FilesToReplicate;
    var received := ReceivedProjectionSums(ExpectedPart(p, version, remote).projections, h, map[]);
    NoEntrySent(p, version, remote);
    UnlistedCommutes(own, files, NOT_CHECKSUMMED, h, received);
    FixedNamesAreNoEntries();
    ProjectionSumsAreEntries(p.projections, own, h, version, remote, send, map[]);
    var sent := AddUnlisted(own, SenderProjectionSums(p.projections, own, h, version, remote, send, map[]));
    TransactionFileDiffers(p, h, version, remote, AddUnlisted(own, received), sent);
  }

  lemma TotalSpoils(p: Part, h: Hashes, version: int, remote: bool, i: nat)
    requires ValidPart(p) && version >= WITH_PROJECTIONS
    requires i < |p.projections| && !SameTotal(p.projections[i].part, h, version, remote)
    ensures ReceiverSums(ExpectedPart(p, version, remote), h, p.checksums) != SenderSums(p, h, version, remote, true)
  {
    var files, own, name := SentFiles(p, version, remote), p.checksums, p.projections[i].name;
    hide AddFiles, SenderProjectionSums, ReceivedProjectionSums, IsProjectionEntry, Described, FilesToReplicate;
    var entry := name + ".proj";
    var received := ReceivedProjectionSums(ExpectedPart(p, version, remote).projections, h, map[]);
    var sent := SenderProjectionSums(p.projections, own, h, version, remote, true, map[]);
    NoEntrySent(p, version, remote);
    EntriesDiffer(name, name);
    ProjectionSumsAt(p.projections, own, h, version, remote, map[], map[], i);
    AddFilesAt(files, NOT_CHECKSUMMED, h, received, entry);
    AddFilesAt(files, FileNamesWithoutChecksums(p), h, AddUnlisted(own, sent), entry);
  }

  const PART_IN_TRANSACTION :=
    Part(Wide, NIL_UUID, "", map[],
      [StoredFile(CHECKSUMS, "sums", ""), StoredFile(COLUMNS, "columns", ""), StoredFile(TXN_VERSION, "version", "")],
      "", false, [])

  lemma PartInTransaction()
    ensures ValidPart(PART_IN_TRANSACTION)
    ensures Names(PART_IN_TRANSACTION.disk) == {CHECKSUMS, COLUMNS, TXN_VERSION}
  {
    var disk := PART_IN_TRANSACTION.disk;
    assert disk[0] in disk && disk[1] in disk && disk[2] in disk;
  }

  /** A part with a transaction file: the sender's comparison succeeds, and the receiver's fails. */
  lemma TransactionFileExample(h: Hashes, load: seq<File> -> Checksums)
    requires ValidHashes(h)
    requires load(SentFiles(PART_IN_TRANSACTION, WITH_COLUMNS_SUBSTREAMS, false)) == PART_IN_TRANSACTION.checksums
    ensures
      var p, version := PART_IN_TRANSACTION, WITH_COLUMNS_SUBSTREAMS;
      && ValidPart(p) && SenderSucceeds(p, h, version, false, true, true)
      && CheckFetched(ExpectedPart(p, version, false), false, true, load, h) == Fail(ChecksumsDiffer)
  {
    var p, version := PART_IN_TRANSACTION, WITH_COLUMNS_SUBSTREAMS;
    hide AddFiles, Described, ValidPart;
    PartInTransaction();
    assert SenderSucceeds(p, h, version, false, true, true) by {
      assert AddUnlisted(map[], map[]) == map[];
      NothingSummed(SentFiles(p, version, false), FileNamesWithoutChecksums(p), h);
    }
    TransactionFileSpoils(p, h, version, false);
  }

  lemma {:induction false} NothingSummed(files: seq<File>, skipped: set<string>, h: Hashes)
    requires forall f :: f in files ==> f.name in skipped
    ensures AddFiles(files, skipped, h, map[]) == map[]
  {
    if files != [] {
      NothingSummed(files[1..], skipped, h);
    }
  }

  // ---- the sender ----

  predicate Complete(p: Part, version: int) {
    FilesToReplicate(p, version) <= Names(p.disk)
  }

  /** Every announced file exists, and the part's own checksums describe what was sent. */
  ghost predicate SenderSucceeds(p: Part, h: Hashes, version: int, remote: bool, sendProjections: bool, full: bool)
    decreases sendProjections
  {
    && Complete(p, version)
    && (sendProjections ==> forall q :: q in p.projections ==> SenderSucceeds(q.part, h, version, remote, false, full))
    && (!remote && full ==> p.checksums == SenderSums(p, h, version, remote, sendProjections))
  }

  /** A missing file is the error only where one is missing, and otherwise checksums differ. */
  ghost predicate FailsWith(projections: seq<Projection>, version: int, error: Error) {
    error == ChecksumsDiffer || (error == MissingFile && exists q :: q in projections && !Complete(q.part, version))
  }

  ghost function SentBody(p: Part, h: Hashes, version: int, remote: bool, sendProjections: bool): string
    requires ValidDisk(p.disk) && ValidProjections(p.projections)
  {
    (if remote && !p.isProjectionPart then Text(p.uniqueId) else "")
    + ((if sendProjections then ProjectionsStream(p.projections, h, version, remote) else "") + PartBlock(p, h, version, remote))
  }

  method CollectFilesToReplicate(p: Part, version: int) returns (filesToReplicate: set<string>)
    ensures filesToReplicate == FilesToReplicate(p, version)
  {
    filesToReplicate := {};
    var left := p.checksums.Keys;
    while left != {}
      invariant left <= p.checksums.Keys
      invariant filesToReplicate == set name | name in p.checksums.Keys - left && !IsProjectionEntry(name)
    {
      var name :| name in left;
      left := left - {name};
      if IsProjectionEntry(name) {
        continue;
      }
      filesToReplicate := filesToReplicate + {name};
    }
    ghost var checksummed := filesToReplicate;
    var without := FileNamesWithoutChecksums(p);
    left := without;
    while left != {}
      invariant left <= without
      invariant filesToReplicate == checksummed + set name | name in without - left && !Withheld(name, version)
    {
      var name :| name in left;
      left := left - {name};
      if version < WITH_DEFAULT_COMPRESSION && name == DEFAULT_COMPRESSION_CODEC {
        continue;
      }
      if version < WITH_METADATA_VERSION && name == METADATA_VERSION {
        continue;
      }
      if version < WITH_COLUMNS_SUBSTREAMS && name == COLUMNS_SUBSTREAMS {
        continue;
      }
      filesToReplicate := filesToReplicate + {name};
    }
  }

  function UnlistedAmong(names: set<string>, own: Checksums, sums: Checksums): Checksums
    requires names <= own.Keys
  {
    sums + (map name | name in names && IsProjectionEntry(name) && name !in sums :: own[name])
  }

  lemma UnlistedGrows(names: set<string>, name: string, own: Checksums, sums: Checksums)
    requires names <= own.Keys && name in own && name !in names
    ensures UnlistedAmong(names + {name}, own, sums)
         == if IsProjectionEntry(name) && name !in sums then UnlistedAmong(names, own, sums)[name := own[name]]
            else UnlistedAmong(names, own, sums)
    ensures name in UnlistedAmong(names, own, sums) <==> name in sums
  {
    hide IsProjectionEntry;
  }

  method TakeOverUnlisted(own: Checksums, sums: Checksums) returns (r: Checksums)
    ensures r == AddUnlisted(own, sums)
  {
    hide IsProjectionEntry, UnlistedAmong;
    r := sums;
    var left := own.Keys;
    UnlistedBounds(own, sums);
    assert own.Keys - left == {};
    while left != {}
      invariant left <= own.Keys
      invariant r == UnlistedAmong(own.Keys - left, own, sums)
    {
      var name :| name in left;
      UnlistedGrows(own.Keys - left, name, own, sums);
      assert own.Keys - (left - {name}) == own.Keys - left + {name};
      left := left - {name};
      if IsProjectionEntry(name) && name !in r {
        r := r[name := own[name]];
      }
    }
    assert own.Keys - left == own.Keys;
  }

  lemma UnlistedBounds(own: Checksums, sums: Checksums)
    ensures UnlistedAmong({}, own, sums) == sums && UnlistedAmong(own.Keys, own, sums) == AddUnlisted(own, sums)
  {
  }

  method SendFile(f: File, h: Hashes, out: WriteBuffer)
    requires |f.content| < WORD
    modifies out
    ensures out.data == old(out.data) + FileStream(f, h)
  {
    hide Text, Word;
    out.WriteText(f.name);
    out.WriteWord(|f.content|);
    out.Write(f.content);
    out.Write(h.file(f.content));
  }

  method SendFiles(
      files: seq<File>, without: set<string>, h: Hashes, out: WriteBuffer, sums: Checksums) returns (r: Checksums)
    requires ValidFiles(files) && |files| < WORD
    modifies out
    ensures out.data == old(out.data) + BlockStream(files, h)
    ensures r == AddFiles(files, without, h, sums)
  {
    hide FileStream, Word;
    out.WriteWord(|files|);
    r := sums;
    ghost var written := "";
    for i := 0 to |files|
      invariant out.data == old(out.data) + (Word(|files|) + written)
      invariant written + FilesStream(files[i..], h) == FilesStream(files, h)
      invariant AddFiles(files[i..], without, h, r) == AddFiles(files, without, h, sums)
    {
      var f := files[i];
      assert files[i..][0] == f && files[i..][1..] == files[i + 1..];
      SendFile(f, h, out);
      written := written + FileStream(f, h);
      if f.name !in without {
        r := r[f.name := Checksum(|f.content|, h.file(f.content))];
      }
    }
    assert files[|files|..] == [];
  }

  method SendProjections(
      p: Part, out: WriteBuffer, h: Hashes, version: int, remote: bool, sendProjections: bool, full: bool)
    returns (r: Result<Checksums>)
    requires ValidProjections(p.projections)
    modifies out
    ensures r.Ok? <==> (sendProjections ==> forall q :: q in p.projections ==> SenderSucceeds(q.part, h, version, remote, false, full))
    ensures r.Fail? ==> FailsWith(p.projections, version, r.error)
    ensures r.Ok? ==> r.value == SenderProjectionSums(p.projections, p.checksums, h, version, remote, sendProjections, map[])
    ensures r.Ok? ==> out.data == old(out.data) + if sendProjections then ProjectionsStream(p.projections, h, version, remote) else ""
    decreases sendProjections, 0
  {
    hide Text, SenderSums, SenderSucceeds, PartBlock, ProjectionsStream, SenderProjectionSums;
    var sums: Checksums := map[];
    assert p.projections[0..] == p.projections;
    ghost var written := "";
    for i := 0 to |p.projections|
      invariant out.data == old(out.data) + written
      invariant sendProjections ==>
          written + ProjectionsStream(p.projections[i..], h, version, remote) == ProjectionsStream(p.projections, h, version, remote)
      invariant !sendProjections ==> written == ""
      invariant sendProjections ==> forall q :: q in p.projections[..i] ==> SenderSucceeds(q.part, h, version, remote, false, full)
      invariant SenderProjectionSums(p.projections[i..], p.checksums, h, version, remote, sendProjections, sums)
             == SenderProjectionSums(p.projections, p.checksums, h, version, remote, sendProjections, map[])
    {
      var q := p.projections[i];
      assert q in p.projections && p.projections[..i + 1] == p.projections[..i] + [q];
      ProjectionsStep(p.projections, i, p.checksums, h, version, remote, sendProjections, sums);
      if sendProjections {
        out.WriteText(q.name);
        var projectionSums :- SendPartFromDisk(q.part, out, h, version, remote, false, full);
        sums := sums[q.name + ".proj" := h.total(projectionSums)];
        written := written + (Text(q.name) + PartBlock(q.part, h, version, remote));
      } else if q.name + ".proj" in p.checksums {
        sums := sums[q.name + ".proj" := p.checksums[q.name + ".proj"]];
      }
    }
    assert p.projections[|p.projections|..] == [] && p.projections[..|p.projections|] == p.projections;
    NoMoreProjections(p.checksums, h, version, remote, sendProjections, sums);
    return Ok(sums);
  }

  lemma ProjectionsStep(
    projections: seq<Projection>, i: nat, own: Checksums, h: Hashes, version: int, remote: bool, sendProjections: bool, sums: Checksums)
    requires i < |projections| && ValidProjections(projections)
    ensures
      var q := projections[i];
      q in projections &&
      ProjectionsStream(projections[i..], h, version, remote)
      == Text(q.name) + (PartBlock(q.part, h, version, remote) + ProjectionsStream(projections[i + 1..], h, version, remote))
    ensures
      SenderProjectionSums(projections[i..], own, h, version, remote, sendProjections, sums)
      == SenderProjectionSums(projections[i + 1..], own, h, version, remote, sendProjections,
           WithEntry(projections[i], own, h, version, remote, sendProjections, sums))
  {
    hide SenderSums, PartBlock, Text, WithEntry;
    assert projections[i..][0] == projections[i] && projections[i..][1..] == projections[i + 1..];
  }

  lemma NoMoreProjections(own: Checksums, h: Hashes, version: int, remote: bool, sendProjections: bool, sums: Checksums)
    ensures ProjectionsStream([], h, version, remote) == ""
    ensures SenderProjectionSums([], own, h, version, remote, sendProjections, sums) == sums
  {
  }

  method SendPartFromDisk(
      p: Part, out: WriteBuffer, h: Hashes, version: int, remote: bool, sendProjections: bool, full: bool)
    returns (r: Result<Checksums>)
    requires if p.isProjectionPart then ValidProjection(p) && !sendProjections else ValidPart(p)
    modifies out
    ensures r.Ok? <==> SenderSucceeds(p, h, version, remote, sendProjections, full)
    ensures r.Fail? ==> if Complete(p, version) then FailsWith(if sendProjections then p.projections else [], version, r.error)
                        else r.error == MissingFile
    ensures r.Ok? ==> r.value == SenderSums(p, h, version, remote, sendProjections)
    ensures r.Ok? ==> out.data == old(out.data) + SentBody(p, h, version, remote, sendProjections)
    decreases sendProjections, 1
  {
    hide Text, Described, AddFiles, AddUnlisted, FilesToReplicate, BlockStream, SenderProjectionSums, ProjectionsStream, ValidDisk;
    var filesToReplicate := CollectFilesToReplicate(p, version);
    if !(filesToReplicate <= Names(p.disk)) {
      return Fail(MissingFile);
    }
    var files := Described(p.disk, filesToReplicate, remote);
    if remote && !p.isProjectionPart {
      out.WriteText(p.uniqueId);
    }
    var dataChecksums :- SendProjections(p, out, h, version, remote, sendProjections, full);
    dataChecksums := TakeOverUnlisted(p.checksums, dataChecksums);
    SentFilesValid(p, version, remote);
    dataChecksums := SendFiles(files, FileNamesWithoutChecksums(p), h, out, dataChecksums);
    if !remote && full && p.checksums != dataChecksums {
      return Fail(ChecksumsDiffer);
    }
    return Ok(dataChecksums);
  }

  /** The cookies of the response. */
  datatype Cookies = Cookies(serverVersion: int, remoteFsMetadata: string)

  /** `parameter` is the receiver's list of capabilities as it came with the request. */
  method ProcessQuery(
    p: Part, out: WriteBuffer, h: Hashes, clientVersion: int, parameter: string, allowed: bool, supported: bool, diskType: string, full: bool)
    returns (r: Result<Cookies>)
    requires ValidPart(p) && ValidHashes(h)
    modifies out
    ensures
      var remote := SendsRemote(clientVersion, Tokens(parameter), allowed, supported, diskType);
      && (r.Ok? <==> SenderSucceeds(p, h, clientVersion, remote, clientVersion >= WITH_PROJECTIONS, full))
      && (r.Fail? ==> if Complete(p, clientVersion) then FailsWith(if clientVersion >= WITH_PROJECTIONS then p.projections else [], clientVersion, r.error)
                      else r.error == MissingFile)
      && (r.Ok? ==> r.value == Cookies(ServerVersion(clientVersion), if remote then diskType else ""))
      && (r.Ok? ==> out.data == old(out.data) + ResponseStream(p, h, clientVersion, remote))
  {
    hide Text, Word, SenderSums, SenderSucceeds, Tokens, ValidDisk, ValidProjections, ProjectionsStream, PartBlock;
    var serverVersion := Min(clientVersion, WITH_COLUMNS_SUBSTREAMS);
    if clientVersion >= WITH_PARTS_SIZE {
      out.WriteWord(h.total(p.checksums).size);
    }
    if clientVersion >= WITH_TTL_INFOS {
      out.WriteText(TTL_FORMAT + p.ttlInfos);
    }
    if clientVersion >= WITH_PARTS_TYPE {
      out.WriteText(PartTypeText(p.partType));
    }
    if clientVersion >= WITH_UUID {
      out.Write(p.uuid);
    }
    var capabilities := TokenizeCapabilities(parameter);
    var sendProjections := clientVersion >= WITH_PROJECTIONS;
    if sendProjections {
      out.WriteWord(|p.projections|);
    }
    label Body:
    if allowed && clientVersion >= WITH_ZERO_COPY {
      if supported && diskType in capabilities {
        var sums :- SendPartFromDisk(p, out, h, clientVersion, true, sendProjections, full);
        StreamSplits(p, h, clientVersion, true, old(out.data), old@Body(out.data));
        return Ok(Cookies(serverVersion, diskType));
      }
    }
    var sums :- SendPartFromDisk(p, out, h, clientVersion, false, sendProjections, full);
    StreamSplits(p, h, clientVersion, false, old(out.data), old@Body(out.data));
    return Ok(Cookies(serverVersion, ""));
  }

  /** The fields written one after another, then the part, are the response. */
  lemma StreamSplits(p: Part, h: Hashes, version: int, remote: bool, before: string, header: string)
    requires ValidPart(p) && ValidHashes(h)
    requires header ==
             before + (if version >= WITH_PARTS_SIZE then Word(h.total(p.checksums).size) else "")
                    + (if version >= WITH_TTL_INFOS then Text(TTL_FORMAT + p.ttlInfos) else "")
                    + (if version >= WITH_PARTS_TYPE then Text(PartTypeText(p.partType)) else "")
                    + (if version >= WITH_UUID then p.uuid else "")
                    + (if version >= WITH_PROJECTIONS then Word(|p.projections|) else "")
    ensures header + SentBody(p, h, version, remote, version >= WITH_PROJECTIONS) == before + ResponseStream(p, h, version, remote)
  {
    hide Text, Word, ProjectionsStream, PartBlock, PartTypeText;
    assert SentBody(p, h, version, remote, version >= WITH_PROJECTIONS) == PartStream(p, h, version, remote);
  }

  // ---- the receiver ----

  method ReceiveFile(input: ReadBuffer, h: Hashes) returns (r: Result<File>)
    modifies input
    ensures Follows(r, input.rest, ReadFile(old(input.rest), h))
  {
    hide ReadText, ReadWord, ReadBytes;
    var name :- input.ReadString();
    var size :- input.ReadNumber();
    var content :- input.Read(size);
    var expected :- input.Read(HASH_LENGTH);
    if expected != h.file(content) {
      return Fail(ChecksumMismatch(name));
    }
    return Ok(File(name, content));
  }

  method DownloadBaseOrProjectionPartToDisk(
      input: ReadBuffer, h: Hashes, checksums: Checksums) returns (r: Result<(seq<File>, Checksums)>)
    modifies input
    ensures
      match ReadBlock(old(input.rest), h)
      case Ok(p) => r == Ok((p.value, ReceivedFileSums(p.value, h, checksums))) && input.rest == p.rest
      case Fail(e) => r == Fail(e)
  {
    hide ReadFile, ReadWord;
    var files :- input.ReadNumber();
    var written: seq<File>, sums := [], checksums;
    for i := 0 to files
      invariant ReadFiles(input.rest, files - i, h, written) == ReadBlock(old(input.rest), h)
      invariant sums == ReceivedFileSums(written, h, checksums)
    {
      var f :- ReceiveFile(input, h);
      AddFilesLast(written, f, NOT_CHECKSUMMED, h, checksums);
      written := written + [f];
      if f.name !in NOT_CHECKSUMMED {
        sums := sums[f.name := Checksum(|f.content|, h.file(f.content))];
      }
    }
    return Ok((written, sums));
  }

  lemma {:induction false} AddFilesLast(files: seq<File>, f: File, skipped: set<string>, h: Hashes, sums: Checksums)
    ensures AddFiles(files + [f], skipped, h, sums)
         == var before := AddFiles(files, skipped, h, sums);
            if f.name in skipped then before else before[f.name := Checksum(|f.content|, h.file(f.content))]
    decreases |files|
  {
    if files == [] {
      assert files + [f] == [f] && [f][1..] == [];
    } else {
      var g := files[0];
      assert (files + [f])[1..] == files[1..] + [f];
      AddFilesLast(files[1..], f, skipped, h, if g.name in skipped then sums else sums[g.name := Checksum(|g.content|, h.file(g.content))]);
    }
  }

  lemma {:induction false} ReceivedProjectionSumsLast(
      projections: seq<FetchedProjection>, q: FetchedProjection, h: Hashes, sums: Checksums)
    ensures ReceivedProjectionSums(projections + [q], h, sums)
         == ReceivedProjectionSums(projections, h, sums)[q.name + ".proj" := h.total(ReceivedFileSums(q.files, h, map[]))]
    decreases |projections|
  {
    if projections == [] {
      assert projections + [q] == [q] && [q][1..] == [];
    } else {
      var first := projections[0];
      assert (projections + [q])[1..] == projections[1..] + [q];
      ReceivedProjectionSumsLast(projections[1..], q, h, sums[first.name + ".proj" := h.total(ReceivedFileSums(first.files, h, map[]))]);
    }
  }

  method DownloadProjections(
      input: ReadBuffer, projections: nat, h: Hashes) returns (r: Result<(seq<FetchedProjection>, Checksums)>)
    modifies input
    ensures
      match ReadProjections(old(input.rest), projections, h, [])
      case Ok(p) => r == Ok((p.value, ReceivedProjectionSums(p.value, h, map[]))) && input.rest == p.rest
      case Fail(e) => r == Fail(e)
  {
    hide ReadBlock, ReadText;
    var read: seq<FetchedProjection>, sums: Checksums := [], map[];
    for i := 0 to projections
      invariant ReadProjections(input.rest, projections - i, h, read) == ReadProjections(old(input.rest), projections, h, [])
      invariant sums == ReceivedProjectionSums(read, h, map[])
    {
      var name :- input.ReadString();
      var block :- DownloadBaseOrProjectionPartToDisk(input, h, map[]);
      var q := FetchedProjection(name, block.0);
      ReceivedProjectionSumsLast(read, q, h, map[]);
      read := read + [q];
      sums := sums[name + ".proj" := h.total(block.1)];
    }
    return Ok((read, sums));
  }

  /** On a full storage a transferred part must agree with the checksums it came with, `load` of its files. */
  function CheckFetched(
      f: Fetched, remote: bool, full: bool, load: seq<File> -> Checksums, h: Hashes): Result<Fetched> {
    var own := load(f.files);
    if !remote && full && own != ReceiverSums(f, h, own) then Fail(ChecksumsDiffer) else Ok(f)
  }

  method DownloadPartToDisk(
    input: ReadBuffer, projections: nat, remote: bool, known: string -> bool, h: Hashes, full: bool, load: seq<File> -> Checksums)
    returns (r: Result<Fetched>)
    modifies input
    ensures
      match ReadPart(old(input.rest), projections, remote, known, h)
      case Ok(f) => r == CheckFetched(f, remote, full, load, h)
      case Fail(e) => r == Fail(e)
  {
    hide ReadText, ReadProjections, ReadBlock, AddUnlisted;
    var partId := "";
    if remote {
      partId :- input.ReadString();
      if !known(partId) {
        return Fail(UnknownUniqueId);
      }
    }
    var read :- DownloadProjections(input, projections, h);
    var block :- DownloadBaseOrProjectionPartToDisk(input, h, read.1);
    if input.rest != "" {
      return Fail(ExtraData);
    }
    var fetched := Fetched(partId, read.0, block.0);
    if !remote {
      if full {
        var own := load(block.0);
        var sums := TakeOverUnlisted(own, block.1);
        if own != sums {
          return Fail(ChecksumsDiffer);
        }
      }
    }
    return Ok(fetched);
  }

  method FetchSelectedPart(
    input: ReadBuffer, cookies: Cookies, capability: seq<string>, known: string -> bool, h: Hashes, full: bool, load: seq<File> -> Checksums)
    returns (r: Result<(Header, Fetched)>)
    modifies input
    ensures
      match ReadResponse(old(input.rest), cookies.serverVersion, cookies.remoteFsMetadata, capability, known, h)
      case Ok(both) =>
        var checked := CheckFetched(both.1, cookies.remoteFsMetadata != "", full, load, h);
        r == if checked.Ok? then Ok((both.0, checked.value)) else Fail(checked.error)
      case Fail(e) => r == Fail(e)
  {
    hide ReadText, ReadWord, ReadBytes, ReadPart, CheckFetched, PartTypeFromText;
    var version := cookies.serverVersion;
    var tryZeroCopy := capability != [];
    var sumFilesSize, ttlInfos := 0, "";
    if version >= WITH_PARTS_SIZE {
      sumFilesSize :- input.ReadNumber();
      if version >= WITH_TTL_INFOS {
        var text :- input.ReadString();
        if !(TTL_FORMAT <= text) {
          return Fail(BadTtlFormat);
        }
        ttlInfos := text[|TTL_FORMAT|..];
      }
    }
    var partType := Wide;
    if version >= WITH_PARTS_TYPE {
      var text :- input.ReadString();
      partType :- PartTypeFromText(text);
    }
    var uuid := NIL_UUID;
    if version >= WITH_UUID {
      uuid :- input.Read(UUID_LENGTH);
    }
    var projections := 0;
    if version >= WITH_PROJECTIONS {
      projections :- input.ReadNumber();
    }
    var header := Header(sumFilesSize, ttlInfos, partType, uuid, projections);
    var remote := cookies.remoteFsMetadata != "";
    if remote {
      if !tryZeroCopy || cookies.remoteFsMetadata !in capability || version < WITH_ZERO_COPY {
        return Fail(UnexpectedCookie);
      }
    }
    var fetched :- DownloadPartToDisk(input, projections, remote, known, h, full, load);
    return Ok((header, fetched));
  }

  /**
   * A fetch of what a sender sent without an error: the receiver ends with the same part, and fails only where it does
   * not know the remote copy, or where the comparison of checksums cannot succeed.
   */
  lemma FetchAfterSend(
    p: Part, h: Hashes, clientVersion: int, capability: seq<string>, allowed: bool, supported: bool, diskType: string, known: string -> bool,
    full: bool, load: seq<File> -> Checksums)
    requires ValidPart(p) && ValidHashes(h)
    requires diskType != "" && forall c :: c in capability ==> Plain(c)
    requires
      var remote := SendsRemote(clientVersion, Tokens(Joined(capability)), allowed, supported, diskType);
      && SenderSucceeds(p, h, clientVersion, remote, clientVersion >= WITH_PROJECTIONS, full)
      && load(SentFiles(p, clientVersion, remote)) == p.checksums
    ensures
      var remote := SendsRemote(clientVersion, Tokens(Joined(capability)), allowed, supported, diskType);
      var cookie := if remote then diskType else "";
      var read := ReadResponse(ResponseStream(p, h, clientVersion, remote), ServerVersion(clientVersion), cookie, capability, known, h);
      && (read.Fail? <==> remote && !known(p.uniqueId))
      && (read.Ok? ==>
            var r := CheckFetched(read.value.1, cookie != "", full, load, h);
            && (r.Fail? <==> !remote && full && !ChecksumsMatch(p, h, clientVersion, remote))
            && (r.Ok? ==> r.value == ExpectedPart(p, clientVersion, remote)))
  {
    hide ReadResponse, ResponseStream, SenderSums, ReceiverSums, ExpectedHeader, Tokens, Joined, ValidPart, ValidHashes, ChecksumsMatch, SentFiles, Plain;
    var remote := SendsRemote(clientVersion, Tokens(Joined(capability)), allowed, supported, diskType);
    ExchangeRoundTrip(p, h, clientVersion, capability, allowed, supported, diskType, known);
    if !remote && full {
      ChecksumsAgree(p, h, clientVersion, remote);
    }
  }

  /** What is summed up for files of different names: size and hash of each one that is not skipped, and nothing else. */
  lemma {:induction false} AddFilesMeans(files: seq<File>, skipped: set<string>, h: Hashes, sums: Checksums, name: string)
    requires DistinctNames(files)
    ensures
      var r := AddFiles(files, skipped, h, sums);
      && (name in r <==> name in sums || (name !in skipped && exists f :: f in files && f.name == name))
      && (forall f :: f in files && f.name == name && name !in skipped ==> name in r && r[name] == Checksum(|f.content|, h.file(f.content)))
      && (name in sums && (name in skipped || forall f :: f in files ==> f.name != name) ==> r[name] == sums[name])
    decreases |files|
  {
    if files != [] {
      var f, rest := files[0], files[1..];
      assert DistinctNames(rest);
      assert forall g :: g in rest ==> g.name != f.name;
      assert forall g :: g in files <==> g == f || g in rest;
      AddFilesMeans(rest, skipped, h, if f.name in skipped then sums else sums[f.name := Checksum(|f.content|, h.file(f.content))], name);
    }
  }

  /** The receiver leaves five files out of its sums, and the sender those that have no checksum on its disk. */
  lemma SkippedMeans(p: Part, name: string)
    ensures name in NOT_CHECKSUMMED <==>
      name in {"checksums.txt", "columns.txt", "columns_substreams.txt", "default_compression_codec.txt", "metadata_version.txt"}
    ensures name in FileNamesWithoutChecksums(p) <==>
      || name in {"checksums.txt", "columns.txt"}
      || (name in {"default_compression_codec.txt", "txn_version.txt", "metadata_version.txt", "columns_substreams.txt"} && name in Names(p.disk))
  {
    hide Names;
  }

  // ---- the protocol in numbers ----

  lemma ReplicatedName(p: Part, version: int, name: string)
    ensures name in FilesToReplicate(p, version) && name !in Names(p.disk) ==> MustExist(p, name)
    ensures MustExist(p, name) ==> name in FilesToReplicate(p, version)
  {
    hide Names;
  }

  /** The files that every sender announces. */
  predicate MustExist(p: Part, name: string) {
    name == "checksums.txt" || name == "columns.txt" || (name in p.checksums && !(|name| >= 5 && name[|name| - 5..] == ".proj"))
  }

  /** What has to be on the sender's disk. */
  lemma CompleteMeans(p: Part, version: int)
    ensures Complete(p, version) <==> forall name :: MustExist(p, name) ==> name in Names(p.disk)
  {
    hide FilesToReplicate, Names, MustExist;
    forall name: string
      ensures name in FilesToReplicate(p, version) && name !in Names(p.disk) ==> MustExist(p, name)
      ensures MustExist(p, name) ==> name in FilesToReplicate(p, version)
    {
      ReplicatedName(p, version, name);
    }
    if forall name :: MustExist(p, name) ==> name in Names(p.disk) {
      forall name | name in FilesToReplicate(p, version) ensures name in Names(p.disk) {
      }
    }
  }

  /** From which version on each part of the response is there. */
  lemma VersionsCarry(p: Part, h: Hashes, version: int, remote: bool)
    ensures
      var header := ExpectedHeader(p, h, version);
      && header.size == (if version >= 1 then h.total(p.checksums).size else 0)
      && header.ttlInfos == (if version >= 2 then p.ttlInfos else "")
      && header.partType == (if version >= 3 then p.partType else Wide)
      && header.uuid == (if version >= 5 then p.uuid else "00000000-0000-0000-0000-000000000000")
      && header.projections == (if version >= 7 then |p.projections| else 0)
    ensures
      var part := ExpectedPart(p, version, remote);
      && |part.projections| == (if version >= 7 then |p.projections| else 0)
      && (forall i :: 0 <= i < |part.projections| ==> part.projections[i].name == p.projections[i].name)
      && part.uniqueId == (if remote then p.uniqueId else "")
    ensures ServerVersion(version) == (if version <= 9 then version else 9)
    ensures forall capabilities, allowed, supported, diskType ::
      SendsRemote(version, capabilities, allowed, supported, diskType)
      <==> allowed && version >= 6 && supported && diskType in capabilities
  {
  }

  /** A number below 256 in eight bytes, the lowest first. */
  function Small(n: nat): string
    requires n < 256
  {
    [n as char] + "\0\0\0\0\0\0\0"
  }

  lemma ZeroByte(k: nat)
    ensures LittleEndian(0, k + 1) == "\0" + LittleEndian(0, k)
  {
  }

  lemma ZeroBytes()
    ensures LittleEndian(0, 7) == "\0\0\0\0\0\0\0"
  {
    ZeroByte(0);
    ZeroByte(1);
    ZeroByte(2);
    ZeroByte(3);
    ZeroByte(4);
    ZeroByte(5);
    ZeroByte(6);
    assert LittleEndian(0, 0) == "";
    hide LittleEndian;
  }

  lemma FirstByte(n: nat, k: nat)
    requires n < 256
    ensures LittleEndian(n, k + 1) == [n as char] + LittleEndian(0, k)
  {
  }

  lemma SmallWord(n: nat)
    requires n < 256
    ensures Word(n) == Small(n)
  {
    hide LittleEndian;
    ZeroBytes();
    FirstByte(n, 7);
  }

  lemma ShortText(t: string)
    requires |t| < 128
    ensures Text(t) == [|t| as char] + t
  {
  }

  /** A part of two files. */
  const SMALL_PART :=
    Part(Compact, NIL_UUID, "ttl", map[], [StoredFile(CHECKSUMS, "c", "remote"), StoredFile(COLUMNS, "cc", "")], "id", false, [])

  lemma SmallPart()
    ensures ValidPart(SMALL_PART)
    ensures forall version :: Described(SMALL_PART.disk, FilesToReplicate(SMALL_PART, version), false)
                              == [File("checksums.txt", "c"), File("columns.txt", "cc")]
  {
    var disk := SMALL_PART.disk;
    assert disk[0] in disk && disk[1] in disk;
    forall version
      ensures Described(disk, FilesToReplicate(SMALL_PART, version), false) == [File("checksums.txt", "c"), File("columns.txt", "cc")]
    {
      var names := FilesToReplicate(SMALL_PART, version);
      assert disk[1..] == [disk[1]] && disk[1..][1..] == [];
      assert Described(disk[1..], names, false) == [File("columns.txt", "cc")];
    }
  }

  function SmallBlock(h: Hashes): string {
    Small(2) + (([13 as char] + "checksums.txt") + (Small(1) + ("c" + h.file("c"))) + (([11 as char] + "columns.txt") + (Small(2) + ("cc" + h.file("cc")))))
  }

  lemma SmallPartBlock(h: Hashes, version: int)
    requires ValidHashes(h)
    ensures ValidPart(SMALL_PART) && PartBlock(SMALL_PART, h, version, false) == SmallBlock(h)
  {
    SmallPart();
    var a, b := File("checksums.txt", "c"), File("columns.txt", "cc");
    SmallWord(1);
    SmallWord(2);
    ShortText("checksums.txt");
    ShortText("columns.txt");
    hide Word, Text, Small;
    assert SentFiles(SMALL_PART, version, false) == [a, b];
    assert [a, b][1..] == [b] && [b][1..] == [];
    assert FilesStream([], h) == "";
    assert FilesStream([b], h) == FileStream(b, h) + "" == FileStream(b, h);
    assert FilesStream([a, b], h) == FileStream(a, h) + FileStream(b, h);
  }

  lemma SmallPartStream(h: Hashes, version: int)
    requires ValidHashes(h)
    ensures ValidPart(SMALL_PART) && PartStream(SMALL_PART, h, version, false) == SmallBlock(h)
  {
    SmallPart();
    SmallPartBlock(h, version);
    hide PartBlock, SmallBlock, ValidPart;
    assert ProjectionsStream([], h, version, false) == "";
    assert "" + SmallBlock(h) == SmallBlock(h);
  }

  lemma SmallTtl()
    ensures TTL_FORMAT + "ttl" == "ttl format version: 1\nttl"
    ensures Text(TTL_FORMAT + "ttl") == [25 as char] + "ttl format version: 1\nttl"
    ensures Text(PartTypeText(Compact)) == [7 as char] + "Compact"
  {
    assert |"ttl format version: 1\nttl"| == 25;
    ShortText("ttl format version: 1\nttl");
    ShortText("Compact");
  }

  /** The bytes of the oldest and of the newest response for this part. */
  lemma ResponseExample(h: Hashes)
    requires ValidHashes(h) && h.total(map[]).size == 5
    ensures ValidPart(SMALL_PART)
    ensures ResponseStream(SMALL_PART, h, 0, false) == SmallBlock(h)
    ensures ResponseStream(SMALL_PART, h, 9, false)
         == Small(5) + (([25 as char] + "ttl format version: 1\nttl") + (([7 as char] + "Compact")
            + ("00000000-0000-0000-0000-000000000000" + (Small(0) + SmallBlock(h)))))
  {
    SmallPartStream(h, 0);
    SmallPartStream(h, 9);
    SmallTtl();
    SmallWord(5);
    SmallWord(0);
    hide Word, Text, Small, PartStream, SmallBlock, ValidPart;
    assert "" + ("" + ("" + ("" + ("" + SmallBlock(h))))) == SmallBlock(h);
  }
}
