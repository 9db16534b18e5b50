/**
 Archives that other programs write: entries for the directory itself, paths behind `./`, and extended headers,
 as the remote `tar -c -f - -C <dir> .` sends them; and headers that were damaged on the way.
 */
module TarForeign {
  import opened Basics
  import opened Splitting
  import opened TarHeader
  import opened TarArchive
  import opened TarTree
  import opened TarTransfer
  import opened Utf8

  const DOT_SLASH: seq<Byte> := [46, 47]
  const PAX_LOCAL: Byte := 120
  const PAX_GLOBAL: Byte := 103

  // ---------------------------------------------------------------- paths behind `./`

  function DotSlashes(k: nat): seq<Byte> {
    if k == 0 then [] else DOT_SLASH + DotSlashes(k - 1)
  }

  /** Any number of `./`, and nothing else. */
  ghost predicate IsDotSlashes(p: seq<Byte>) {
    exists k :: p == DotSlashes(k)
  }

  lemma DotSlashFirst(p: seq<Byte>)
    ensures StripDotSlash(DOT_SLASH + p) == StripDotSlash(p)
  {
    assert (DOT_SLASH + p)[2..] == p;
  }

  /** A path behind `./` leads where the path itself leads. */
  lemma DotSlashLeadsNowhere(p: seq<Byte>)
    ensures Sanitize(DOT_SLASH + p) == Sanitize(p)
  {
    DotSlashFirst(p);
  }

  lemma {:induction false} DotSlashesAreStripped(k: nat)
    ensures StripDotSlash(DotSlashes(k)) == []
  {
    if k > 0 {
      DotSlashFirst(DotSlashes(k - 1));
      DotSlashesAreStripped(k - 1);
    }
  }

  lemma {:induction false} StrippedToNothing(p: seq<Byte>) returns (k: nat)
    requires StripDotSlash(p) == []
    ensures p == DotSlashes(k)
    decreases |p|
  {
    if p == [] {
      k := 0;
    } else {
      k := StrippedToNothing(p[2..]);
      assert p == DOT_SLASH + p[2..];
      k := k + 1;
    }
  }

  /** An entry is skipped exactly when its path is any number of `./`. */
  lemma SkippedExactly(p: seq<Byte>)
    ensures Sanitize(p) == Skip <==> IsDotSlashes(p)
  {
    if Sanitize(p) == Skip {
      var k := StrippedToNothing(p);
    }
    if k :| p == DotSlashes(k) {
      DotSlashesAreStripped(k);
    }
  }

  /** A name that stands for nothing on the way. */
  predicate Silent(name: Name) {
    name == [] || name == DOT
  }

  /** The names that are left when those that stand for nothing are taken out, one by one and in order. */
  ghost predicate Kept(parts: seq<Name>, names: seq<Name>)
    decreases |parts|
  {
    if parts == [] then names == []
    else if Silent(parts[0]) then Kept(parts[1..], names)
    else names != [] && names[0] == parts[0] && Kept(parts[1..], names[1..])
  }

  lemma {:induction false} KeepNamesKeeps(parts: seq<Name>)
    ensures Kept(parts, KeepNames(parts))
    decreases |parts|
  {
    if parts != [] {
      KeepNamesKeeps(parts[1..]);
    }
  }

  lemma {:induction false} KeptIsUnique(parts: seq<Name>, names: seq<Name>)
    requires Kept(parts, names)
    ensures names == KeepNames(parts)
    decreases |parts|
  {
    if parts != [] {
      if Silent(parts[0]) {
        KeptIsUnique(parts[1..], names);
      } else {
        KeptIsUnique(parts[1..], names[1..]);
        assert names == [names[0]] + names[1..];
      }
    }
  }

  /** A path built from components: refused for `..`, for a leading slash and for nothing but `.`; otherwise its names. */
  lemma ComponentsLead(parts: seq<Name>, names: seq<Name>)
    requires parts != [] && AllFree(parts, SLASH) && Join(parts, SLASH) != []
    requires !(DOT_SLASH <= Join(parts, SLASH))
    ensures
      var target := Sanitize(Join(parts, SLASH));
      && (target == Refused <==> parts[0] == [] || DOTDOT in parts || forall i :: 0 <= i < |parts| ==> Silent(parts[i]))
      && (target == Inside(names) <==> parts[0] != [] && DOTDOT !in parts && names != [] && Kept(parts, names))
  {
    SanitizedParts(parts);
    KeepNamesKeeps(parts);
    DotDotIsKept(parts);
    NothingKept(parts);
    if Kept(parts, names) {
      KeptIsUnique(parts, names);
    }
  }

  lemma NotBehindDotSlash(p: seq<Byte>)
    ensures DOT_SLASH <= p || StripDotSlash(p) == p
  {
    if |p| >= 2 && p[0] == 46 && p[1] == SLASH {
      assert p[..2] == DOT_SLASH;
    }
  }

  lemma SanitizedParts(parts: seq<Name>)
    requires parts != [] && AllFree(parts, SLASH) && Join(parts, SLASH) != []
    requires !(DOT_SLASH <= Join(parts, SLASH))
    ensures
      var names := KeepNames(parts);
      Sanitize(Join(parts, SLASH)) ==
        if parts[0] == [] || DOTDOT in names || names == [] then Refused else Inside(names)
  {
    var p := Join(parts, SLASH);
    SplitOfJoin(parts, SLASH);
    AbsoluteStart(parts);
    NotBehindDotSlash(p);
  }

  lemma AbsoluteStart(parts: seq<Name>)
    requires parts != [] && AllFree(parts, SLASH) && Join(parts, SLASH) != []
    ensures Join(parts, SLASH)[0] == SLASH <==> parts[0] == []
  {
    assert Free(parts[0], SLASH);
    if parts[0] != [] {
      assert parts[0][0] in parts[0];
    }
  }

  lemma {:induction false} DotDotIsKept(parts: seq<Name>)
    ensures DOTDOT in KeepNames(parts) <==> DOTDOT in parts
    decreases |parts|
  {
    if parts != [] {
      DotDotIsKept(parts[1..]);
      assert parts == [parts[0]] + parts[1..];
    }
  }

  lemma {:induction false} NothingKept(parts: seq<Name>)
    ensures KeepNames(parts) == [] <==> forall i :: 0 <= i < |parts| ==> Silent(parts[i])
    decreases |parts|
  {
    if parts != [] {
      NothingKept(parts[1..]);
      assert forall i :: 0 < i < |parts| ==> parts[i] == parts[1..][i - 1];
      assert forall i :: 0 <= i < |parts[1..]| ==> parts[1..][i] == parts[i + 1];
    }
  }

  // -------------------------------------------------------- entries that change nothing

  /** An entry as another program may put it into an archive: a header block, content and padding. */
  datatype Foreign = Foreign(header: Block, content: seq<Byte>, pad: seq<Byte>)

  /** A well-formed entry that stands for nothing here: for the directory itself, or an extended header. */
  ghost predicate StandsForNothing(f: Foreign) {
    && !AllZero(f.header) && Parse(f.header).Ok?
    && var entry := Parse(f.header).value;
       && |f.content| == entry.size && |f.pad| == PadLength(entry.size)
       && (IsDotSlashes(entry.path)
           || ((entry.flag == PAX_LOCAL || entry.flag == PAX_GLOBAL) && !Sanitize(entry.path).Refused?))
  }

  function Code(f: Foreign): seq<Byte> {
    f.header + f.content + f.pad
  }

  function Codes(fs: seq<Foreign>): seq<Byte> {
    if fs == [] then [] else Code(fs[0]) + Codes(fs[1..])
  }

  lemma NothingIsApplied(entry: Parsed, content: seq<Byte>, fs: Fs, c: Counts)
    requires Sanitize(entry.path) == Skip
          || ((entry.flag == PAX_LOCAL || entry.flag == PAX_GLOBAL) && !Sanitize(entry.path).Refused?)
    ensures ApplyEntry(fs, c, entry, content) == Done(fs, c)
  {
    if !Sanitize(entry.path).Skip? {
      assert !IsFileFlag(entry.flag) && entry.flag != DIR_FLAG;
    }
  }

  /** Such an entry is passed over with its content: file system, counts and everything behind it stay as they are. */
  lemma EntryIsPassedOver(f: Foreign, rest: seq<Byte>, fs: Fs, c: Counts)
    requires StandsForNothing(f)
    ensures Extract(Code(f) + rest, fs, c) == Extract(rest, fs, c)
  {
    var entry := Parse(f.header).value;
    NextOfPieces(f.header, entry, f.content, f.pad, rest);
    SkippedExactly(entry.path);
    NothingIsApplied(entry, f.content, fs, c);
    ExtractEntry(Code(f) + rest, entry, f.content, rest, fs, c);
  }

  /** Any number of them in front of an archive change nothing. */
  lemma {:induction false} EntriesArePassedOver(front: seq<Foreign>, rest: seq<Byte>, fs: Fs, c: Counts)
    requires forall i :: 0 <= i < |front| ==> StandsForNothing(front[i])
    ensures Extract(Codes(front) + rest, fs, c) == Extract(rest, fs, c)
    decreases |front|
  {
    if front == [] {
      assert [] + rest == rest;
    } else {
      assert Codes(front) + rest == Code(front[0]) + (Codes(front[1..]) + rest);
      EntryIsPassedOver(front[0], Codes(front[1..]) + rest, fs, c);
      EntriesArePassedOver(front[1..], rest, fs, c);
    }
  }

  /** A tree's archive behind entries that stand for nothing extracts to the same tree with the same counts. */
  lemma TreeBehindOthers(front: seq<Foreign>, entries: seq<DirEntry>, after: seq<Byte>) returns (fs: Fs)
    requires forall i :: 0 <= i < |front| ==> StandsForNothing(front[i])
    requires ValidEntries(entries) && SizesFit(Items([], entries)) && EncodeAll(Items([], entries)).Some?
    ensures SameTree(fs, entries)
    ensures Extract(Codes(front) + ArchiveOf(entries, after), map[], NO_COUNTS)
         == Done(fs, CountAll(NO_COUNTS, Items([], entries)))
  {
    EntriesArePassedOver(front, ArchiveOf(entries, after), map[], NO_COUNTS);
    fs := TreeRoundTrip(entries, after);
  }

  // --------------------------------------------- what the remote tar sends for a directory

  function Dotted(item: Item): Item {
    item.(path := DOT_SLASH + item.path)
  }

  function AllDotted(items: seq<Item>): seq<Item> {
    seq(|items|, i requires 0 <= i < |items| => Dotted(items[i]))
  }

  lemma DottedDoesTheSame(item: Item, fs: Fs, c: Counts)
    ensures ApplyItem(Dotted(item), fs, c) == ApplyItem(item, fs, c)
  {
    DotSlashLeadsNowhere(item.path);
    DotSlashLeadsNowhere(item.path + [SLASH]);
    assert DOT_SLASH + item.path + [SLASH] == DOT_SLASH + (item.path + [SLASH]);
  }

  lemma {:induction false} AllDottedDoTheSame(items: seq<Item>, fs: Fs, c: Counts)
    ensures ApplyItems(AllDotted(items), fs, c) == ApplyItems(items, fs, c)
    decreases |items|
  {
    if items != [] {
      DottedDoesTheSame(items[0], fs, c);
      var step := ApplyItem(items[0], fs, c);
      assert AllDotted(items)[1..] == AllDotted(items[1..]);
      if step.Done? {
        AllDottedDoTheSame(items[1..], step.fs, step.counts);
      }
    }
  }

  lemma DottedIsStorable(item: Item)
    requires Storable(item)
    ensures Storable(Dotted(item))
  {
    assert DOT_SLASH + item.path == [] + ([46] + ([] + ([SLASH] + item.path)));
    AsciiSeparates([], SLASH, item.path);
    AsciiSeparates([], 46, [] + ([SLASH] + item.path));
  }

  /** The entries of a tree with every path behind `./`, as written with the same header layout. */
  function DottedArchive(entries: seq<DirEntry>, after: seq<Byte>): seq<Byte>
    requires EncodeAll(AllDotted(Items([], entries))).Some?
  {
    EncodeAll(AllDotted(Items([], entries))).value + (Trailer() + after)
  }

  lemma {:induction false} DottedMeansSupported(items: seq<Item>)
    requires EncodeAll(AllDotted(items)).Some?
    ensures NoSpecials(items)
  {
    EncodableMeansSupported(AllDotted(items));
    forall i | 0 <= i < |items| ensures !items[i].Unsupported? {
      assert !AllDotted(items)[i].Unsupported?;
    }
  }

  /**
   What a remote `tar` sends for a directory: entries for the directory itself and extended headers in front,
   and every path behind `./`. It extracts to exactly the tree, with the tree's counts.
   */
  lemma RemoteTarArrives(front: seq<Foreign>, entries: seq<DirEntry>, after: seq<Byte>) returns (fs: Fs)
    requires forall i :: 0 <= i < |front| ==> StandsForNothing(front[i])
    requires ValidEntries(entries) && SizesFit(Items([], entries)) && EncodeAll(AllDotted(Items([], entries))).Some?
    ensures SameTree(fs, entries)
    ensures Extract(Codes(front) + DottedArchive(entries, after), map[], NO_COUNTS)
         == Done(fs, CountAll(NO_COUNTS, Items([], entries)))
  {
    var items := Items([], entries);
    EntriesArePassedOver(front, DottedArchive(entries, after), map[], NO_COUNTS);
    DottedMeansSupported(items);
    ItemsAreStorable(entries);
    forall i | 0 <= i < |items| ensures Storable(AllDotted(items)[i]) {
      DottedIsStorable(items[i]);
    }
    ArchiveRoundTrip(AllDotted(items), after, map[], NO_COUNTS);
    AllDottedDoTheSame(items, map[], NO_COUNTS);
    fs := TreeIsApplied(entries);
  }

  // ------------------------------------------------------- what any other entry does

  /** No file stands at the path or above it, where directories are wanted. */
  ghost predicate NoFileAlong(fs: Fs, path: FsPath) {
    forall n :: 0 < n <= |path| ==> !IsFile(fs, path[..n])
  }

  predicate IsFile(fs: Fs, path: FsPath) {
    path in fs && fs[path].FsFile?
  }

  /** What stands at `r` once the directories down to `path` exist. */
  function AtWithDirs(fs: Fs, path: FsPath, r: FsPath): Option<FsNode> {
    if r in fs then Some(fs[r])
    else if r != [] && r <= path then Some(FsDir)
    else None
  }

  function At(fs: Fs, r: FsPath): Option<FsNode> {
    if r in fs then Some(fs[r]) else None
  }

  lemma {:induction false} DirsAreMade(fs: Fs, path: FsPath)
    ensures MakeDirs(fs, path).Some? <==> NoFileAlong(fs, path)
    ensures MakeDirs(fs, path).Some? ==>
              forall r :: At(MakeDirs(fs, path).value, r) == AtWithDirs(fs, path, r)
    decreases |path|
  {
    if path != [] {
      var above := path[..|path| - 1];
      DirsAreMade(fs, above);
      NoFileOneMore(fs, path);
      if MakeDirs(fs, above).Some? {
        var made := MakeDirs(fs, above).value;
        assert At(made, path) == AtWithDirs(fs, above, path);
        forall r | MakeDirs(fs, path).Some? ensures At(MakeDirs(fs, path).value, r) == AtWithDirs(fs, path, r) {
          assert At(made, r) == AtWithDirs(fs, above, r);
          PrefixOrWhole(path, r);
        }
      }
    }
  }

  lemma PrefixOrWhole(path: FsPath, r: FsPath)
    requires path != []
    ensures r <= path <==> r == path || r <= path[..|path| - 1]
  {
    if r <= path && r != path {
      assert r == path[..|path| - 1][..|r|];
    }
  }

  lemma NoFileOneMore(fs: Fs, path: FsPath)
    requires path != []
    ensures NoFileAlong(fs, path) <==> NoFileAlong(fs, path[..|path| - 1]) && !IsFile(fs, path)
  {
    var above := path[..|path| - 1];
    assert forall n :: 0 < n <= |above| ==> above[..n] == path[..n];
    assert path[..|path|] == path;
    if NoFileAlong(fs, path) {
      forall n | 0 < n <= |above| ensures !IsFile(fs, above[..n]) {
        assert !IsFile(fs, path[..n]);
      }
    }
    if NoFileAlong(fs, above) && !IsFile(fs, path) {
      forall n | 0 < n <= |path| ensures !IsFile(fs, path[..n]) {
        if n < |path| {
          assert !IsFile(fs, above[..n]);
        }
      }
    }
  }

  /**
   A regular file whose path leads inside arrives if and only if no file stands in its way and its place is no
   directory. Then it holds the content, missing directories above it exist, and nothing else has changed.
   */
  lemma FileArrives(fs: Fs, c: Counts, entry: Parsed, content: seq<Byte>)
    requires (entry.flag == FILE_FLAG || entry.flag == 0) && Sanitize(entry.path).Inside?
    ensures
      var path, r := Sanitize(entry.path).path, ApplyEntry(fs, c, entry, content);
      var above := path[..|path| - 1];
      && (r.Done? <==> NoFileAlong(fs, above) && At(fs, path) != Some(FsDir))
      && (r.Done? ==>
            && r.counts == c.(files := c.files + 1, bytes := c.bytes + |content|)
            && forall q :: At(r.fs, q) == if q == path then Some(FsFile(content)) else AtWithDirs(fs, above, q))
      && (r.Aborted? ==> r == Aborted(fs, FsConflict))
  {
    var path := Sanitize(entry.path).path;
    var above := path[..|path| - 1];
    DirsAreMade(fs, above);
    if MakeDirs(fs, above).Some? {
      assert At(MakeDirs(fs, above).value, path) == AtWithDirs(fs, above, path) == At(fs, path);
    }
  }

  /** A directory arrives if and only if it has no content and no file stands at its path or above it. */
  lemma DirectoryArrives(fs: Fs, c: Counts, entry: Parsed, content: seq<Byte>)
    requires entry.flag == DIR_FLAG && Sanitize(entry.path).Inside?
    ensures
      var path, r := Sanitize(entry.path).path, ApplyEntry(fs, c, entry, content);
      && (r.Done? <==> entry.size == 0 && NoFileAlong(fs, path))
      && (r.Done? ==>
            && r.counts == c.(directories := c.directories + 1)
            && forall q :: At(r.fs, q) == AtWithDirs(fs, path, q))
      && (r.Aborted? ==> r == Aborted(fs, if entry.size != 0 then BadEntry else FsConflict))
  {
    DirsAreMade(fs, Sanitize(entry.path).path);
  }

  /** A file that the stream ends in is left with the bytes that arrived; nothing but a file leaves anything. */
  lemma CutFileKeepsWhatArrived(fs: Fs, entry: Parsed, content: seq<Byte>)
    requires Sanitize(entry.path).Inside?
    ensures
      var path, r := Sanitize(entry.path).path, CutShort(fs, entry, content);
      var above := path[..|path| - 1];
      if (entry.flag == FILE_FLAG || entry.flag == 0) && NoFileAlong(fs, above) && At(fs, path) != Some(FsDir) then
        && r == Aborted(r.fs, Truncated)
        && forall q :: At(r.fs, q) == if q == path then Some(FsFile(content)) else AtWithDirs(fs, above, q)
      else r == Aborted(fs, if entry.flag == FILE_FLAG || entry.flag == 0 then FsConflict else Truncated)
  {
    var path := Sanitize(entry.path).path;
    var above := path[..|path| - 1];
    DirsAreMade(fs, above);
    if MakeDirs(fs, above).Some? {
      assert At(MakeDirs(fs, above).value, path) == AtWithDirs(fs, above, path) == At(fs, path);
    }
  }

  /** Links, devices and every other kind of entry end the extraction, as a refused path does. */
  lemma OthersEndIt(fs: Fs, c: Counts, entry: Parsed, content: seq<Byte>)
    requires Sanitize(entry.path).Refused?
          || (Sanitize(entry.path).Inside? && entry.flag !in {FILE_FLAG, 0, DIR_FLAG, PAX_LOCAL, PAX_GLOBAL})
    ensures ApplyEntry(fs, c, entry, content)
         == Aborted(fs, if Sanitize(entry.path).Refused? then BadPath else BadEntry)
  {
  }

  // ------------------------------------------------------- headers of other programs

  ghost predicate AllFillers(s: seq<Byte>) {
    forall i :: 0 <= i < |s| ==> IsFiller(s[i])
  }

  lemma {:induction false} TrimLeftFillers(front: seq<Byte>, s: seq<Byte>)
    requires AllFillers(front) && (s != [] ==> !IsFiller(s[0]))
    ensures TrimLeft(front + s) == s
  {
    if front == [] {
      assert front + s == s;
    } else {
      assert (front + s)[1..] == front[1..] + s;
      TrimLeftFillers(front[1..], s);
    }
  }

  /** A number field may be filled up with blanks and zero bytes on both sides. */
  lemma FieldIsRead(front: seq<Byte>, value: nat, width: nat, back: seq<Byte>)
    requires AllFillers(front) && 0 < width <= 11 && AllFillers(back)
    ensures ParseOctal(front + OctalDigits(value, width) + back) == Some(value % Pow8(width))
  {
    var digits := OctalDigits(value, width);
    assert (digits + back)[0] == digits[0];
    Assoc(front, digits, back);
    TrimLeftFillers(front, digits + back);
    TrimLeftFillers([], digits + back);
    assert [] + (digits + back) == digits + back;
    FieldRoundTrip(value, width, back);
  }

  lemma EmptyFieldIsZero(field: seq<Byte>)
    requires AllFillers(field)
    ensures ParseOctal(field) == Some(0)
  {
    assert field + [] == field;
    TrimLeftFillers(field, []);
  }

  lemma {:induction false} StaysAfterTrimming(s: seq<Byte>, b: Byte)
    requires !IsFiller(b) && b in s
    ensures b in TrimLeft(s) && b in TrimRight(s)
    ensures forall x :: x in TrimLeft(s) || x in TrimRight(s) ==> x in s
    decreases |s|
  {
    if IsFiller(s[0]) {
      assert s == [s[0]] + s[1..];
      StaysAfterTrimming(s[1..], b);
    }
    if IsFiller(s[|s| - 1]) {
      assert s == s[..|s| - 1] + [s[|s| - 1]];
      StaysAfterTrimming(s[..|s| - 1], b);
    }
  }

  lemma {:induction false} StrangeDigit(s: seq<Byte>, b: Byte)
    requires b in s && !IsOctal(b)
    ensures DigitsValue(s).None?
    decreases |s|
  {
    if b in s[..|s| - 1] {
      StrangeDigit(s[..|s| - 1], b);
    } else {
      assert s == s[..|s| - 1] + [s[|s| - 1]];
    }
  }

  /** A byte other than the digits 0 to 7, a zero byte, a blank and a plus sign spoils a number field. */
  lemma StrangeByteIsRefused(field: seq<Byte>, b: Byte)
    requires b in field && !(48 <= b <= 55) && b !in {0, 32, 43}
    ensures ParseOctal(field).None?
  {
    StaysAfterTrimming(field, b);
    StaysAfterTrimming(TrimLeft(field), b);
    var s := TrimRight(TrimLeft(field));
    if s[0] == PLUS {
      assert s == [s[0]] + s[1..];
      StrangeDigit(s[1..], b);
    } else {
      StrangeDigit(s, b);
    }
  }

  predicate Holds(b: Block, at: nat, len: nat, text: seq<Byte>)
    requires at + len <= BLOCK
  {
    |text| <= len && forall i :: 0 <= i < len ==> b[at + i] == Padded(text, i)
  }

  lemma HeldText(b: Block, at: nat, len: nat, text: seq<Byte>)
    requires at + len <= BLOCK && Holds(b, at, len, text) && NoNul(text)
    ensures CString(b[at..at + len]) == text
  {
    var field := b[at..at + len];
    forall i | 0 <= i < len ensures field[i] == Padded(text, i) {
      assert field[i] == b[at + i];
    }
    CStringOfPadded(field, text);
  }

  /** The magic that programs write: `ustar` with a zero byte or a blank, and one of five versions. */
  predicate SaysUstar(b: Block) {
    && b[257] == 117 && b[258] == 115 && b[259] == 116 && b[260] == 97 && b[261] == 114
    && (b[262] == NUL || b[262] == BLANK)
    && (b[263], b[264]) in {(48, 48), (BLANK, BLANK), (NUL, NUL), (48, NUL), (48, BLANK)}
  }

  lemma SaysUstarExactly(b: Block)
    ensures SaysUstar(b) <==> IsUstar(b)
  {
    var magic, version := b[257..263], b[263..265];
    assert magic == [b[257], b[258], b[259], b[260], b[261], b[262]];
    assert version == [b[263], b[264]];
  }

  /** This text stands in a field of the header, filled up with zero bytes. */
  ghost predicate Reads(b: Block, at: nat, len: nat, text: seq<Byte>)
    requires at + len <= BLOCK
  {
    Holds(b, at, len, text) && NoNul(text) && ValidUtf8(text)
  }

  lemma TextIsRead(b: Block, at: nat, len: nat, text: seq<Byte>)
    requires at + len <= BLOCK && Reads(b, at, len, text)
    ensures Lossy(CString(b[at..at + len])) == text
  {
    HeldText(b, at, len, text);
    LossyIsIdentityExactly(text);
  }

  lemma ParsedParts(b: Block, ustar: bool, name: seq<Byte>, prefix: seq<Byte>, size: nat)
    requires Validate(b) == Ok(ustar) && ParseOctal(b[124..136]) == Some(size) && Lossy(CString(b[0..100])) == name
    requires ustar ==> Lossy(CString(b[345..500])) == prefix
    ensures Parse(b) == Ok(Parsed(if ustar && prefix != [] then prefix + [SLASH] + name else name, size, b[156]))
  {
  }

  /**
   A header of another program, whatever its other bytes: with the right checksum and a size it gives its name
   behind its prefix, and the prefix counts in headers that say `ustar` alone.
   */
  lemma ForeignHeaderIsRead(b: Block, ustar: bool, name: seq<Byte>, prefix: seq<Byte>, size: nat)
    requires !AllZero(b) && ParseOctal(b[148..156]) == Some(MaskedSum(b, BLOCK)) && ParseOctal(b[124..136]) == Some(size)
    requires ustar == SaysUstar(b) && Reads(b, 0, 100, name) && (ustar ==> Reads(b, 345, 155, prefix))
    ensures Parse(b) == Ok(Parsed(if ustar && prefix != [] then prefix + [SLASH] + name else name, size, b[156]))
  {
    SaysUstarExactly(b);
    TextIsRead(b, 0, 100, name);
    if ustar {
      TextIsRead(b, 345, 155, prefix);
    }
    ParsedParts(b, ustar, name, prefix, size);
  }

  lemma NumberStands(f: Fields, at: nat, value: nat, width: nat)
    requires 0 < width <= 11 && at + width + 1 <= 148
    requires forall j :: at <= j <= at + width ==> PlainByte(f, j) == Padded(OctalDigits(value, width), j - at)
    ensures ParseOctal(Header(f)[at..at + width + 1]) == Some(value % Pow8(width))
  {
    HeaderBytes(f);
    var digits := OctalDigits(value, width);
    assert Header(f)[at..at + width + 1] == digits + [NUL] by {
      forall j | at <= j <= at + width ensures Header(f)[j] == (digits + [NUL])[j - at] {
        assert Header(f)[j] == PlainByte(f, j);
      }
    }
    FieldRoundTrip(value, width, [NUL]);
  }

  lemma ModeStands(f: Fields)
    ensures ParseOctal(Header(f)[100..108]) == Some(f.mode % Pow8(7))
  {
    NumberStands(f, 100, f.mode, 7);
  }

  lemma OwnerStands(f: Fields)
    ensures ParseOctal(Header(f)[108..116]) == Some(0) && ParseOctal(Header(f)[116..124]) == Some(0)
  {
    NumberStands(f, 108, 0, 7);
    NumberStands(f, 116, 0, 7);
  }

  lemma TimeStands(f: Fields)
    ensures ParseOctal(Header(f)[136..148]) == Some(f.mtime % Pow8(11))
  {
    NumberStands(f, 136, f.mtime, 11);
  }

  lemma FlagStands(f: Fields)
    ensures Header(f)[156] == f.flag && SaysUstar(Header(f))
  {
    HeaderBytes(f);
    CarriesMagic(f);
    SaysUstarExactly(Header(f));
  }

  /** What any other reader finds in a written header: mode, no owner, modification time, and the `ustar` magic. */
  lemma OthersReadHeader(f: Fields)
    ensures ParseOctal(Header(f)[100..108]) == Some(f.mode % Pow8(7))
    ensures ParseOctal(Header(f)[108..116]) == Some(0) && ParseOctal(Header(f)[116..124]) == Some(0)
    ensures ParseOctal(Header(f)[136..148]) == Some(f.mtime % Pow8(11))
    ensures Header(f)[156] == f.flag && SaysUstar(Header(f))
  {
    ModeStands(f);
    OwnerStands(f);
    TimeStands(f);
    FlagStands(f);
  }

  lemma UnusedBytesAreZero(f: Fields)
    ensures forall i :: 157 <= i < 257 || 265 <= i < 345 || 500 <= i < BLOCK ==> Header(f)[i] == NUL
  {
    HeaderBytes(f);
  }

  // ------------------------------------------------------------------ damaged headers

  lemma {:induction false} SumSeesOneByte(a: seq<Byte>, b: seq<Byte>, i: nat, n: nat)
    requires n <= |a| == |b| && i < |a| && !InChecksum(i) && b == a[i := b[i]]
    ensures MaskedSum(b, n) - MaskedSum(a, n) == if i < n then b[i] as int - a[i] as int else 0
  {
    if n > 0 {
      SumSeesOneByte(a, b, i, n - 1);
    }
  }

  /** One damaged byte outside the checksum field of a written header is always noticed. */
  lemma DamageIsNoticed(f: Fields, i: nat, damaged: Byte)
    requires i < BLOCK && !(148 <= i < 156) && damaged != Header(f)[i]
    ensures
      var b: Block := Header(f)[i := damaged];
      Validate(b) == Err(BadChecksum)
  {
    var h := Header(f);
    var b: Block := h[i := damaged];
    HeaderBytes(f);
    StoredChecksum(f);
    SumSeesOneByte(h, b, i, BLOCK);
    assert b[148..156] == h[148..156];
    var magic := if i == 257 then 258 else 257;
    assert h[257] == USTAR[0] && h[258] == USTAR[1];
    assert b[magic] == h[magic] != NUL;
  }

  /** Such a header stops the extraction and leaves what was extracted before it. */
  lemma DamageStopsExtraction(f: Fields, i: nat, damaged: Byte, rest: seq<Byte>, fs: Fs, c: Counts)
    requires i < BLOCK && !(148 <= i < 156) && damaged != Header(f)[i]
    ensures Extract(Header(f)[i := damaged] + rest, fs, c) == Aborted(fs, BadChecksum)
  {
    var b: Block := Header(f)[i := damaged];
    DamageIsNoticed(f, i, damaged);
    assert (b + rest)[..BLOCK] == b;
  }

  // ------------------------------------------------------------ what the writer accepts

  /** The path fits a name field, or it has a last slash with a prefix field in front and a name field behind it. */
  ghost predicate Fits(path: seq<Byte>) {
    || |path| <= 100
    || exists k :: 0 <= k <= 155 && LastSlashIs(path, k) && |path| - k - 1 <= 100
  }

  ghost predicate LastSlashIs(path: seq<Byte>, k: nat) {
    k < |path| && path[k] == SLASH && forall i :: k < i < |path| ==> path[i] != SLASH
  }

  lemma SplitAccepts(path: seq<Byte>)
    ensures SplitUstar(path).Some? <==> Fits(path)
  {
    var last := LastSlash(path);
    if last.Some? {
      assert LastSlashIs(path, last.value);
    }
    if |path| > 100 && Fits(path) {
      var k :| 0 <= k <= 155 && LastSlashIs(path, k) && |path| - k - 1 <= 100;
      assert last == Some(k);
    }
  }

  /** The path as the header has it: a directory's ends in a slash. */
  function HeaderPath(item: Item): seq<Byte> {
    if item.DirItem? then item.path + [SLASH] else item.path
  }

  ghost predicate Accepted(item: Item) {
    !item.Unsupported? && Fits(HeaderPath(item))
  }

  /** The writer accepts a list of entries exactly when all are files and directories whose paths fit their headers. */
  lemma {:induction false} WriterAcceptsExactly(items: seq<Item>)
    ensures EncodeAll(items).Some? <==> forall i :: 0 <= i < |items| ==> Accepted(items[i])
    decreases |items|
  {
    if items != [] {
      WriterAcceptsExactly(items[1..]);
      SplitAccepts(HeaderPath(items[0]));
      assert EncodeItem(items[0]).Some? <==> Accepted(items[0]);
      assert items == [items[0]] + items[1..];
      assert forall i :: 0 <= i < |items[1..]| ==> items[1..][i] == items[i + 1];
      if forall i :: 0 <= i < |items[1..]| ==> Accepted(items[1..][i]) {
        forall i | 0 < i < |items| && Accepted(items[0]) ensures Accepted(items[i]) {
          assert items[i] == items[1..][i - 1];
        }
      }
    }
  }
}
