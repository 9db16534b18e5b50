/** Archives as streams of entries: the writer's output, the extractor, and the round trip. */
module TarArchive {
  import opened Basics
  import opened Splitting
  import opened TarHeader
  import opened Utf8

  datatype Meta = Meta(mode: nat, mtime: nat)

  /** One thing the depth-first walk meets; the path is the archive path, without a trailing slash. */
  datatype Item =
    | DirItem(path: seq<Byte>, meta: Meta)
    | FileItem(path: seq<Byte>, content: seq<Byte>, meta: Meta)
    | Unsupported(path: seq<Byte>)

  datatype Counts = Counts(bytes: nat, files: nat, directories: nat)

  const NO_COUNTS := Counts(0, 0, 0)

  function PadLength(size: nat): (n: nat)
    ensures n < BLOCK && (size + n) % BLOCK == 0
  {
    (BLOCK - size % BLOCK) % BLOCK
  }

  function Zeros(n: nat): (s: seq<Byte>)
    ensures |s| == n
  {
    seq(n, _ => NUL)
  }

  /** The archive bytes of one item, or `None` if the writer refuses it. */
  function EncodeItem(item: Item): Option<seq<Byte>> {
    match item
    case DirItem(path, meta) =>
      var h := HeaderFor(path + [SLASH], 0, meta.mode, meta.mtime, DIR_FLAG);
      if h.None? then None else Some(h.value)
    case FileItem(path, content, meta) =>
      var h := HeaderFor(path, |content|, meta.mode, meta.mtime, FILE_FLAG);
      if h.None? then None else Some(h.value + content + Zeros(PadLength(|content|)))
    case Unsupported(_) => None
  }

  function EncodeAll(items: seq<Item>): Option<seq<Byte>> {
    if items == [] then Some([])
    else
      var first, rest := EncodeItem(items[0]), EncodeAll(items[1..]);
      if first.None? || rest.None? then None else Some(first.value + rest.value)
  }

  function Trailer(): seq<Byte> {
    Zeros(BLOCK) + Zeros(BLOCK)
  }

  function AddItem(c: Counts, item: Item): Counts {
    match item
    case DirItem(_, _) => c.(directories := c.directories + 1)
    case FileItem(_, content, _) => c.(files := c.files + 1, bytes := c.bytes + |content|)
    case Unsupported(_) => c
  }

  // ------------------------------------------------------------- the file system

  type Name = seq<Byte>
  type FsPath = seq<Name>

  datatype FsNode = FsDir | FsFile(content: seq<Byte>)

  /** Everything below the destination directory; the destination itself is the empty path. */
  type Fs = map<FsPath, FsNode>

  function MakeDirs(fs: Fs, path: FsPath): Option<Fs> {
    if path == [] then Some(fs)
    else
      var above := MakeDirs(fs, path[..|path| - 1]);
      if above.None? then None
      else if path !in above.value then Some(above.value[path := FsDir])
      else if above.value[path].FsDir? then above
      else None
  }

  function CreateFile(fs: Fs, path: FsPath, content: seq<Byte>): Option<Fs>
    requires path != []
  {
    var above := MakeDirs(fs, path[..|path| - 1]);
    if above.None? || (path in above.value && above.value[path].FsDir?) then None
    else Some(above.value[path := FsFile(content)])
  }

  // --------------------------------------------------------------- entry paths

  const DOT: Name := [46]
  const DOTDOT: Name := [46, 46]

  function StripDotSlash(p: seq<Byte>): seq<Byte> {
    if |p| >= 2 && p[0] == 46 && p[1] == SLASH then StripDotSlash(p[2..]) else p
  }

  function KeepNames(parts: seq<Name>): seq<Name> {
    if parts == [] then []
    else if parts[0] == [] || parts[0] == DOT then KeepNames(parts[1..])
    else [parts[0]] + KeepNames(parts[1..])
  }

  datatype Target = Skip | Refused | Inside(path: FsPath)

  /** Where an archive path leads: skipped when empty, refused when it could leave the destination. */
  function Sanitize(path: seq<Byte>): (t: Target)
    ensures t.Inside? ==> t.path != []
  {
    var p := StripDotSlash(path);
    if p == [] then Skip
    else if p[0] == SLASH then Refused
    else
      var names := KeepNames(Split(p, SLASH));
      if DOTDOT in names || names == [] then Refused else Inside(names)
  }

  // ------------------------------------------------------------------ extraction

  /** The extracted file system with its counts, or what an aborted extraction leaves behind. */
  datatype Extraction = Done(fs: Fs, counts: Counts) | Aborted(fs: Fs, error: TarError)

  /** The effect of one parsed entry whose content is already at hand. */
  function ApplyEntry(fs: Fs, c: Counts, entry: Parsed, content: seq<Byte>): Extraction {
    match Sanitize(entry.path)
    case Skip => Done(fs, c)
    case Refused => Aborted(fs, BadPath)
    case Inside(path) =>
      if entry.flag == DIR_FLAG then
        if entry.size != 0 then Aborted(fs, BadEntry)
        else
          var made := MakeDirs(fs, path);
          if made.None? then Aborted(fs, FsConflict) else Done(made.value, c.(directories := c.directories + 1))
      else if IsFileFlag(entry.flag) then
        var made := CreateFile(fs, path, content);
        if made.None? then Aborted(fs, FsConflict)
        else Done(made.value, c.(files := c.files + 1, bytes := c.bytes + |content|))
      else if entry.flag == 120 || entry.flag == 103 then Done(fs, c)
      else Aborted(fs, BadEntry)
  }

  predicate IsFileFlag(flag: Byte) {
    flag == FILE_FLAG || flag == 0
  }

  /** What stands at the front of an archive; an entry is incomplete when the stream is cut short in it. */
  datatype Front =
    | EndOfArchive
    | Broken(error: TarError)
    | Entry(entry: Parsed, content: seq<Byte>, complete: bool, rest: seq<Byte>)

  function Next(stream: seq<Byte>): (front: Front)
    ensures front.Entry? ==> |front.rest| < |stream|
  {
    if |stream| < BLOCK then Broken(Truncated)
    else if AllZero(stream[..BLOCK]) then
      if |stream| < 2 * BLOCK then Broken(Truncated) else EndOfArchive
    else
      var entry := Parse(stream[..BLOCK]);
      if entry.Err? then Broken(entry.error)
      else
        var size := entry.value.size;
        var total := BLOCK + size + PadLength(size);
        if |stream| < total then Entry(entry.value, stream[BLOCK..Min(|stream|, BLOCK + size)], false, [])
        else Entry(entry.value, stream[BLOCK..BLOCK + size], true, stream[total..])
  }

  /**
   An entry the stream ends in. A bad path or an uncreatable file is noticed before the missing bytes are;
   a file that could be created is left with the bytes that arrived.
   */
  function CutShort(fs: Fs, entry: Parsed, content: seq<Byte>): Extraction {
    match Sanitize(entry.path)
    case Refused => Aborted(fs, BadPath)
    case Skip => Aborted(fs, Truncated)
    case Inside(path) =>
      if !IsFileFlag(entry.flag) then Aborted(fs, Truncated)
      else
        var made := CreateFile(fs, path, content);
        if made.None? then Aborted(fs, FsConflict) else Aborted(made.value, Truncated)
  }

  /** What the whole archive does to a file system. */
  function Extract(stream: seq<Byte>, fs: Fs, c: Counts): Extraction
    decreases |stream|
  {
    match Next(stream)
    case EndOfArchive => Done(fs, c)
    case Broken(error) => Aborted(fs, error)
    case Entry(entry, content, complete, rest) =>
      if !complete then CutShort(fs, entry, content)
      else
        var step := ApplyEntry(fs, c, entry, content);
        if step.Aborted? then step else Extract(rest, step.fs, step.counts)
  }

  // ----------------------------------------------------- no archive reaches outside

  /** A name that stays where it is put: one proper component of well-formed text. */
  ghost predicate SafeName(name: Name) {
    name != [] && name != DOT && name != DOTDOT && SLASH !in name && ValidUtf8(name)
  }

  ghost predicate SafePath(path: FsPath) {
    path != [] && forall i :: 0 <= i < |path| ==> SafeName(path[i])
  }

  /** Only safe paths differ between the two file systems. */
  ghost predicate ChangesOnlySafePaths(fs: Fs, fs': Fs) {
    forall p: FsPath :: SafePath(p) || SameAt(fs, fs', p)
  }

  ghost predicate SameAt(fs: Fs, fs': Fs, p: FsPath) {
    (p in fs' <==> p in fs) && (p in fs ==> fs'[p] == fs[p])
  }

  lemma ChangesCompose(a: Fs, b: Fs, c: Fs)
    requires ChangesOnlySafePaths(a, b) && ChangesOnlySafePaths(b, c)
    ensures ChangesOnlySafePaths(a, c)
  {
    forall p: FsPath | !SafePath(p) ensures SameAt(a, c, p) {
      assert SameAt(a, b, p) && SameAt(b, c, p);
    }
  }

  lemma {:induction false} MakeDirsIsSafe(fs: Fs, path: FsPath)
    requires forall i :: 0 <= i < |path| ==> SafeName(path[i])
    ensures MakeDirs(fs, path).Some? ==> ChangesOnlySafePaths(fs, MakeDirs(fs, path).value)
  {
    if path != [] {
      MakeDirsIsSafe(fs, path[..|path| - 1]);
      assert SafePath(path);
    }
  }

  lemma CreateFileIsSafe(fs: Fs, path: FsPath, content: seq<Byte>)
    requires SafePath(path)
    ensures CreateFile(fs, path, content).Some? ==> ChangesOnlySafePaths(fs, CreateFile(fs, path, content).value)
  {
    MakeDirsIsSafe(fs, path[..|path| - 1]);
  }

  lemma {:induction false} StripKeepsValid(p: seq<Byte>)
    requires ValidUtf8(p)
    ensures ValidUtf8(StripDotSlash(p))
    decreases |p|
  {
    if |p| >= 2 && p[0] == 46 && p[1] == SLASH {
      assert p == [] + ([46] + p[1..]) && p[1..] == [] + ([SLASH] + p[2..]);
      AsciiSeparates([], 46, p[1..]);
      AsciiSeparates([], SLASH, p[2..]);
      StripKeepsValid(p[2..]);
    }
  }

  lemma {:induction false} KeptNames(parts: seq<Name>, name: Name)
    requires name in KeepNames(parts)
    ensures name in parts && name != [] && name != DOT
    decreases |parts|
  {
    if name in KeepNames(parts[1..]) {
      KeptNames(parts[1..], name);
      assert parts[1..] <= parts[1..] && forall x :: x in parts[1..] ==> x in parts;
    }
  }

  /** Whatever path an entry has, what it leads to is a safe path. */
  lemma SanitizeIsSafe(path: seq<Byte>)
    requires ValidUtf8(path)
    ensures Sanitize(path).Inside? ==> SafePath(Sanitize(path).path)
  {
    if Sanitize(path).Inside? {
      var p := StripDotSlash(path);
      var parts, names := Split(p, SLASH), Sanitize(path).path;
      StripKeepsValid(path);
      SplitIsValid(p, SLASH);
      SplitIsFree(p, SLASH);
      forall i | 0 <= i < |names| ensures SafeName(names[i]) {
        KeptNames(parts, names[i]);
        var j :| 0 <= j < |parts| && parts[j] == names[i];
        assert Free(parts[j], SLASH);
      }
    }
  }

  lemma EntryIsSafe(fs: Fs, c: Counts, entry: Parsed, content: seq<Byte>)
    requires ValidUtf8(entry.path)
    ensures ChangesOnlySafePaths(fs, ApplyEntry(fs, c, entry, content).fs)
    ensures ChangesOnlySafePaths(fs, CutShort(fs, entry, content).fs)
  {
    SanitizeIsSafe(entry.path);
    if Sanitize(entry.path).Inside? {
      MakeDirsIsSafe(fs, Sanitize(entry.path).path);
      CreateFileIsSafe(fs, Sanitize(entry.path).path, content);
    }
  }

  /**
   For every stream, hostile ones included, and however the extraction ends: nothing changes but paths all of
   whose components are non-empty, neither `.` nor `..`, free of slashes, and well-formed text.
   */
  lemma {:induction false} ExtractStaysInside(stream: seq<Byte>, fs: Fs, c: Counts)
    ensures ChangesOnlySafePaths(fs, Extract(stream, fs, c).fs)
    decreases |stream|
  {
    var front := Next(stream);
    if front.Entry? {
      ParsedPathIsValid(stream[..BLOCK]);
      EntryIsSafe(fs, c, front.entry, front.content);
      var step := ApplyEntry(fs, c, front.entry, front.content);
      if front.complete && step.Done? {
        ExtractStaysInside(front.rest, step.fs, step.counts);
        ChangesCompose(fs, step.fs, Extract(front.rest, step.fs, step.counts).fs);
      }
    }
  }

  // --------------------------------------------------------- the stream round trip

  /** The effect of items on a file system, without any archive in between. */
  function ApplyItems(items: seq<Item>, fs: Fs, c: Counts): Extraction {
    if items == [] then Done(fs, c)
    else
      var step := ApplyItem(items[0], fs, c);
      if step.Aborted? then step else ApplyItems(items[1..], step.fs, step.counts)
  }

  function ApplyItem(item: Item, fs: Fs, c: Counts): Extraction {
    match item
    case DirItem(path, _) => ApplyEntry(fs, c, Parsed(path + [SLASH], 0, DIR_FLAG), [])
    case FileItem(path, content, _) => ApplyEntry(fs, c, Parsed(path, |content|, FILE_FLAG), content)
    case Unsupported(_) => Aborted(fs, BadEntry)
  }

  /** An item whose header survives: a relative path of NUL-free text, and a size its field can hold. */
  ghost predicate Storable(item: Item) {
    && item.path != [] && item.path[0] != SLASH && NoNul(item.path) && ValidUtf8(item.path)
    && (item.FileItem? ==> |item.content| < Pow8(11))
  }

  /** One entry of the stream, given its parts. */
  lemma NextOfParts(stream: seq<Byte>, entry: Parsed, content: seq<Byte>, rest: seq<Byte>)
    requires |stream| == BLOCK + entry.size + PadLength(entry.size) + |rest|
    requires !AllZero(stream[..BLOCK]) && Parse(stream[..BLOCK]) == Ok(entry)
    requires stream[BLOCK..BLOCK + entry.size] == content
    requires stream[BLOCK + entry.size + PadLength(entry.size)..] == rest
    ensures Next(stream) == Entry(entry, content, true, rest)
  {
  }

  lemma NextOfCode(path: seq<Byte>, content: seq<Byte>, meta: Meta, flag: Byte, code: seq<Byte>, rest: seq<Byte>)
    requires HeaderFor(path, |content|, meta.mode, meta.mtime, flag).Some?
    requires path != [] && path[0] != SLASH && NoNul(path) && ValidUtf8(path) && |content| < Pow8(11)
    requires code == HeaderFor(path, |content|, meta.mode, meta.mtime, flag).value + content + Zeros(PadLength(|content|))
    ensures Next(code + rest) == Entry(Parsed(path, |content|, flag), content, true, rest)
  {
    var header := HeaderFor(path, |content|, meta.mode, meta.mtime, flag).value;
    HeaderComesBack(path, |content|, meta, flag);
    NextOfPieces(header, Parsed(path, |content|, flag), content, Zeros(PadLength(|content|)), rest);
  }

  lemma NextOfPieces(header: Block, entry: Parsed, content: seq<Byte>, pad: seq<Byte>, rest: seq<Byte>)
    requires !AllZero(header) && Parse(header) == Ok(entry)
    requires |content| == entry.size && |pad| == PadLength(entry.size)
    ensures Next(header + content + pad + rest) == Entry(entry, content, true, rest)
  {
    Pieces(header, content, pad, rest);
    NextOfParts(header + content + pad + rest, entry, content, rest);
  }

  lemma ExtractEntry(stream: seq<Byte>, entry: Parsed, content: seq<Byte>, rest: seq<Byte>, fs: Fs, c: Counts)
    requires Next(stream) == Entry(entry, content, true, rest)
    ensures
      var step := ApplyEntry(fs, c, entry, content);
      Extract(stream, fs, c) == if step.Aborted? then step else Extract(rest, step.fs, step.counts)
  {
  }

  lemma Pieces(a: seq<Byte>, b: seq<Byte>, p: seq<Byte>, rest: seq<Byte>)
    ensures
      var s := a + b + p + rest;
      s[..|a|] == a && s[|a|..|a| + |b|] == b && s[|a| + |b| + |p|..] == rest
  {
  }

  lemma EntryComesBack(item: Item, rest: seq<Byte>, fs: Fs, c: Counts)
    requires EncodeItem(item).Some? && Storable(item)
    ensures
      var step := ApplyItem(item, fs, c);
      Extract(EncodeItem(item).value + rest, fs, c) ==
        if step.Aborted? then step else Extract(rest, step.fs, step.counts)
  {
    match item
    case DirItem(path, meta) =>
      var code := EncodeItem(item).value;
      assert code == code + [] + Zeros(PadLength(0));
      assert NoNul(path + [SLASH]);
      AsciiSeparates(path, SLASH, []);
      assert path + ([SLASH] + []) == path + [SLASH];
      NextOfCode(path + [SLASH], [], meta, DIR_FLAG, code, rest);
      ExtractEntry(code + rest, Parsed(path + [SLASH], 0, DIR_FLAG), [], rest, fs, c);
    case FileItem(path, content, meta) =>
      var code := EncodeItem(item).value;
      NextOfCode(path, content, meta, FILE_FLAG, code, rest);
      ExtractEntry(code + rest, Parsed(path, |content|, FILE_FLAG), content, rest, fs, c);
  }

  lemma HeaderComesBack(path: seq<Byte>, size: nat, meta: Meta, flag: Byte)
    requires HeaderFor(path, size, meta.mode, meta.mtime, flag).Some?
    requires path != [] && path[0] != SLASH && NoNul(path) && ValidUtf8(path) && size < Pow8(11)
    ensures
      var header := HeaderFor(path, size, meta.mode, meta.mtime, flag).value;
      !AllZero(header) && Parse(header) == Ok(Parsed(path, size, flag))
  {
    var parts := SplitUstar(path).value;
    HeaderIsValid(Fields(parts.0, parts.1, size, meta.mode, meta.mtime, flag));
    HeaderRoundTrip(path, size, meta.mode, meta.mtime, flag);
    ModIsIdentityBelow(size, Pow8(11));
  }

  lemma TrailerEnds(after: seq<Byte>, fs: Fs, c: Counts)
    ensures Extract(Trailer() + after, fs, c) == Done(fs, c)
  {
    assert (Trailer() + after)[..BLOCK] == Zeros(BLOCK);
  }

  lemma Assoc<T>(a: seq<T>, b: seq<T>, c: seq<T>)
    ensures (a + b) + c == a + (b + c)
  {
  }

  /** Extracting what was written has the same effect as applying the items directly. */
  lemma {:induction false} ArchiveRoundTrip(items: seq<Item>, after: seq<Byte>, fs: Fs, c: Counts)
    requires EncodeAll(items).Some? && forall i :: 0 <= i < |items| ==> Storable(items[i])
    ensures Extract(EncodeAll(items).value + (Trailer() + after), fs, c) == ApplyItems(items, fs, c)
  {
    if items == [] {
      assert [] + (Trailer() + after) == Trailer() + after;
      TrailerEnds(after, fs, c);
    } else {
      var first, tail := EncodeItem(items[0]).value, EncodeAll(items[1..]).value;
      var rest := tail + (Trailer() + after);
      Assoc(first, tail, Trailer() + after);
      EntryComesBack(items[0], rest, fs, c);
      var step := ApplyItem(items[0], fs, c);
      if step.Done? {
        ArchiveRoundTrip(items[1..], after, step.fs, step.counts);
      }
    }
  }
}
