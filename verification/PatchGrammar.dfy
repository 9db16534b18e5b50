/** The patch language as a grammar, without any parser: what a text must look like to be read as a list of patches. */
module PatchGrammar {
  import opened Basics
  import opened Splitting
  import opened PatchText
  import opened PatchRoundTrip

  // ---------------------------------------------------------------- the grammar

  /** A line of a hunk's body: a mark and any text. */
  predicate BodyLine(line: string) {
    line != "" && (line[0] == ' ' || line[0] == '-' || line[0] == '+')
  }

  predicate AllBody(body: seq<string>) {
    forall i :: 0 <= i < |body| ==> BodyLine(body[i])
  }

  /** The texts of the lines that carry one of two marks, in order. */
  function Marked(body: seq<string>, a: char, b: char): seq<string>
    requires AllBody(body)
  {
    if body == [] then []
    else (if body[0][0] == a || body[0][0] == b then [body[0][1..]] else []) + Marked(body[1..], a, b)
  }

  ghost predicate Carries(body: seq<string>, a: char, b: char)
    requires AllBody(body)
  {
    exists i :: 0 <= i < |body| && (body[i][0] == a || body[i][0] == b)
  }

  predicate MarkerText(line: string, anchor: Option<string>) {
    match anchor
    case None => line == "@@"
    case Some(text) => text != "" && line == "@@ " + text
  }

  /**
   A hunk: a marker line and body lines. The old lines are those marked ' ' or '-', the new ones those marked ' '
   or '+'; there is an old line, and a removed or added one.
   */
  ghost predicate HunkText(lines: seq<string>, h: Hunk) {
    && lines != [] && MarkerText(lines[0], h.anchor)
    && AllBody(lines[1..])
    && Carries(lines[1..], ' ', '-') && Carries(lines[1..], '-', '+')
    && h.oldLines == Marked(lines[1..], ' ', '-')
    && h.newLines == Marked(lines[1..], ' ', '+')
  }

  ghost predicate HunksText(lines: seq<string>, hunks: seq<Hunk>)
    decreases |hunks|, 1
  {
    if hunks == [] then lines == []
    else exists n: nat :: HunkEndsAt(lines, hunks, n)
  }

  /** The first hunk ends in front of line n, and the others stand behind it. */
  ghost predicate HunkEndsAt(lines: seq<string>, hunks: seq<Hunk>, n: nat)
    requires hunks != []
    decreases |hunks|, 0
  {
    n <= |lines| && HunkText(lines[..n], hunks[0]) && HunksText(lines[n..], hunks[1..])
  }

  ghost predicate AllAdded(lines: seq<string>) {
    forall i :: 0 <= i < |lines| ==> lines[i] != "" && lines[i][0] == '+'
  }

  /** Each line without its mark, with a line feed behind it. */
  function AddedText(lines: seq<string>): string
    requires forall i :: 0 <= i < |lines| ==> lines[i] != ""
  {
    if lines == [] then "" else lines[0][1..] + "\n" + AddedText(lines[1..])
  }

  /** The characters that Unicode calls control characters, and those it calls white space. */
  const CONTROLS: set<int> := (set c: int | 0 <= c < 32) + (set c: int | 127 <= c < 160)
  const SPACES: set<int> :=
    {9, 10, 11, 12, 13, 32, 133, 160, 5760, 8192, 8193, 8194, 8195, 8196, 8197, 8198, 8199, 8200, 8201, 8202, 8232, 8233,
     8239, 8287, 12288}

  /** The path of a file: absolute, not ending in a slash or white space, and without control characters. */
  ghost predicate PathText(path: string) {
    && |path| >= 2 && path[0] == '/' && path[|path| - 1] != '/' && path[|path| - 1] as int !in SPACES
    && forall i :: 0 <= i < |path| ==> path[i] as int !in CONTROLS
  }

  /** One file section: the header with a valid path, and the body that its operation asks for. */
  ghost predicate FileText(lines: seq<string>, p: FilePatch) {
    && lines != [] && lines[0] == HeaderOf(p) && PathText(p.path)
    && match p.operation
       case Add(content) => AllAdded(lines[1..]) && content == AddedText(lines[1..])
       case Update(hunks) => hunks != [] && HunksText(lines[1..], hunks)
       case Delete => lines[1..] == []
  }

  ghost predicate FilesText(lines: seq<string>, ps: seq<FilePatch>)
    decreases |ps|, 1
  {
    if ps == [] then lines == []
    else exists n: nat :: FileEndsAt(lines, ps, n)
  }

  /** The first section ends in front of line n, and the others stand behind it. */
  ghost predicate FileEndsAt(lines: seq<string>, ps: seq<FilePatch>, n: nat)
    requires ps != []
    decreases |ps|, 0
  {
    n <= |lines| && FileText(lines[..n], ps[0]) && FilesText(lines[n..], ps[1..])
  }

  /** A whole patch: the envelope around at least one file section, and no path twice. */
  ghost predicate PatchIs(input: string, ps: seq<FilePatch>) {
    LinesText(Split(StripNewline(input), '\n'), ps)
  }

  ghost predicate LinesText(lines: seq<string>, ps: seq<FilePatch>) {
    Enveloped(lines) && FilesText(lines[1..|lines| - 1], ps) && DistinctPaths(ps)
  }

  /** The first and the last line are those of an envelope, and there is a line in between. */
  predicate Enveloped(lines: seq<string>) {
    |lines| >= 3 && lines[0] == BEGIN_PATCH && lines[|lines| - 1] == END_PATCH
  }

  // -------------------------------------------------------------------- hunks

  /** Reading a body: exactly the texts the grammar names, in front of the next marker or the end. */
  lemma {:induction false} BodyIsScanned(
    body: seq<string>, tail: seq<string>, o: seq<string>, n: seq<string>, changed: bool)
    requires AllBody(body) && (tail == [] || "@@" <= tail[0])
    ensures ScanHunk(body + tail, o, n, changed)
         == Ok(Scanned(o + Marked(body, ' ', '-'), n + Marked(body, ' ', '+'), changed || Carries(body, '-', '+'), tail))
    decreases |body|
  {
    if body == [] {
      assert body + tail == tail && o + [] == o && n + [] == n;
    } else {
      var rest := body[1..];
      assert (body + tail)[0] == body[0] && (body + tail)[1..] == rest + tail;
      CarriesFirst(body, '-', '+');
      ScanOne(body[0], rest + tail, o, n, changed);
      var text, mark := [body[0][1..]], body[0][0];
      var o1 := if mark == '+' then o else o + text;
      var n1 := if mark == '-' then n else n + text;
      BodyIsScanned(rest, tail, o1, n1, changed || mark != ' ');
      Assoc3(o, text, Marked(rest, ' ', '-'));
      Assoc3(n, text, Marked(rest, ' ', '+'));
    }
  }

  lemma Assoc3(a: seq<string>, b: seq<string>, c: seq<string>)
    ensures a + b + c == a + (b + c)
    ensures [] + c == c
  {
  }

  lemma ScanOne(line: string, rest: seq<string>, o: seq<string>, n: seq<string>, changed: bool)
    requires BodyLine(line)
    ensures
      var text := [line[1..]];
      ScanHunk([line] + rest, o, n, changed) ==
        ScanHunk(rest, if line[0] == '+' then o else o + text, if line[0] == '-' then n else n + text,
                 changed || line[0] != ' ')
  {
    var lines := [line] + rest;
    assert lines[0] == line && lines[1..] == rest;
    assert !("@@" <= line) && !("*** " <= line);
  }

  lemma CarriesFirst(body: seq<string>, a: char, b: char)
    requires AllBody(body) && body != []
    ensures Carries(body, a, b) <==> body[0][0] == a || body[0][0] == b || Carries(body[1..], a, b)
  {
    if i :| 0 <= i < |body[1..]| && (body[1..][i][0] == a || body[1..][i][0] == b) {
      assert body[i + 1][0] == a || body[i + 1][0] == b;
    }
    if i :| 0 < i < |body| && (body[i][0] == a || body[i][0] == b) {
      assert body[1..][i - 1][0] == a || body[1..][i - 1][0] == b;
    }
  }

  /** Whatever is accepted is a body. */
  lemma {:induction false} ScannedIsBody(lines: seq<string>, o: seq<string>, n: seq<string>, changed: bool)
    returns (k: nat)
    requires ScanHunk(lines, o, n, changed).Ok?
    ensures k <= |lines| && AllBody(lines[..k]) && (lines[k..] == [] || "@@" <= lines[k..][0])
    decreases |lines|
  {
    if lines == [] || "@@" <= lines[0] {
      k := 0;
    } else {
      var text := [lines[0][1..]];
      if lines[0][0] == ' ' {
        k := ScannedIsBody(lines[1..], o + text, n + text, changed);
      } else if lines[0][0] == '-' {
        k := ScannedIsBody(lines[1..], o + text, n, true);
      } else {
        k := ScannedIsBody(lines[1..], o, n + text, true);
      }
      BodyExtends(lines, k);
      k := k + 1;
    }
  }

  lemma BodyExtends(lines: seq<string>, k: nat)
    requires lines != [] && k < |lines| && BodyLine(lines[0]) && AllBody(lines[1..][..k])
    ensures AllBody(lines[..k + 1]) && lines[k + 1..] == lines[1..][k..]
  {
    assert lines[..k + 1] == [lines[0]] + lines[1..][..k];
  }

  lemma {:induction false} CarriedIsMarked(body: seq<string>, a: char, b: char)
    requires AllBody(body)
    ensures Carries(body, a, b) <==> Marked(body, a, b) != []
    decreases |body|
  {
    if body != [] {
      CarriesFirst(body, a, b);
      CarriedIsMarked(body[1..], a, b);
    }
  }

  lemma MarkerIsRead(line: string, anchor: Option<string>)
    ensures ParseMarker(line) == Ok(anchor) <==> MarkerText(line, anchor)
  {
    match anchor
    case None =>
      if "@@ " <= line {
        assert line != "@@";
      }
    case Some(text) =>
      if MarkerText(line, anchor) {
        assert line[0] == '@' && line[3..] == text;
      }
      if "@@ " <= line {
        assert line == line[..3] + line[3..] && line[..3] == "@@ ";
      }
  }

  /** What a hunk's text is read as, whatever comes behind it. */
  lemma HunkIsParsed(text: seq<string>, h: Hunk, tail: seq<string>)
    requires HunkText(text, h) && (tail == [] || "@@" <= tail[0])
    ensures ParseHunk(text + tail) == Ok((h, tail))
  {
    var body := text[1..];
    assert (text + tail)[0] == text[0] && (text + tail)[1..] == body + tail;
    MarkerIsRead(text[0], h.anchor);
    BodyIsScanned(body, tail, [], [], false);
    CarriedIsMarked(body, ' ', '-');
    Assoc3([], [], Marked(body, ' ', '-'));
    Assoc3([], [], Marked(body, ' ', '+'));
  }

  /** Whatever is read as a hunk is a hunk's text. */
  lemma ParsedIsHunk(lines: seq<string>) returns (n: nat)
    requires lines != [] && ParseHunk(lines).Ok?
    ensures 0 < n <= |lines| && HunkText(lines[..n], ParseHunk(lines).value.0)
    ensures lines[n..] == ParseHunk(lines).value.1 && (lines[n..] == [] || "@@" <= lines[n])
  {
    var k := ScannedIsBody(lines[1..], [], [], false);
    n := k + 1;
    var body, tail := lines[1..][..k], lines[1..][k..];
    assert lines[1..] == body + tail && lines[..n][1..] == body && lines[n..] == tail;
    BodyIsScanned(body, tail, [], [], false);
    CarriedIsMarked(body, ' ', '-');
    Assoc3([], [], Marked(body, ' ', '-'));
    Assoc3([], [], Marked(body, ' ', '+'));
    MarkerIsRead(lines[0], ParseHunk(lines).value.0.anchor);
  }

  lemma HunksStartWithMarker(lines: seq<string>, hunks: seq<Hunk>)
    requires HunksText(lines, hunks)
    ensures lines == [] || "@@" <= lines[0]
  {
    if hunks != [] {
      var first, tail := FirstHunk(lines, hunks);
      assert lines[0] == first[0] && MarkerText(first[0], hunks[0].anchor);
    }
  }

  lemma FirstHunk(lines: seq<string>, hunks: seq<Hunk>) returns (first: seq<string>, tail: seq<string>)
    requires hunks != [] && HunksText(lines, hunks)
    ensures lines == first + tail && HunkText(first, hunks[0]) && HunksText(tail, hunks[1..])
  {
    var n: nat :| HunkEndsAt(lines, hunks, n);
    first, tail := lines[..n], lines[n..];
  }

  lemma OneMoreHunk(lines: seq<string>, h: Hunk, tail: seq<string>, rest: seq<Hunk>)
    requires lines != [] && ParseHunk(lines) == Ok((h, tail)) && ParseHunks(tail) == Ok(rest)
    ensures ParseHunks(lines) == Ok([h] + rest)
  {
  }

  lemma {:induction false} HunksAreParsed(lines: seq<string>, hunks: seq<Hunk>)
    requires HunksText(lines, hunks)
    ensures ParseHunks(lines) == Ok(hunks)
    decreases |hunks|
  {
    if hunks != [] {
      var first, tail := FirstHunk(lines, hunks);
      HunksStartWithMarker(tail, hunks[1..]);
      HunkIsParsed(first, hunks[0], tail);
      HunksAreParsed(tail, hunks[1..]);
      OneMoreHunk(lines, hunks[0], tail, hunks[1..]);
      assert [hunks[0]] + hunks[1..] == hunks;
    }
  }

  lemma {:induction false} ParsedAreHunks(lines: seq<string>)
    requires ParseHunks(lines).Ok?
    ensures HunksText(lines, ParseHunks(lines).value)
    decreases |lines|
  {
    if lines != [] {
      var n := ParsedIsHunk(lines);
      var first, rest := ParseHunk(lines).value.0, ParseHunks(lines[n..]).value;
      ParsedAreHunks(lines[n..]);
      assert ([first] + rest)[1..] == rest;
      assert HunkEndsAt(lines, [first] + rest, n);
    }
  }

  /** An update's body is accepted exactly when it is the text of at least one hunk, and as exactly those hunks. */
  lemma UpdateMeaning(lines: seq<string>, hunks: seq<Hunk>)
    ensures ParseUpdate(lines) == Ok(hunks) <==> hunks != [] && HunksText(lines, hunks)
  {
    if hunks != [] && HunksText(lines, hunks) {
      HunksAreParsed(lines, hunks);
    }
    if ParseUpdate(lines) == Ok(hunks) {
      ParsedAreHunks(lines);
    }
  }

  // ----------------------------------------------------------------- sections

  lemma {:induction false} AddLinesMeaning(lines: seq<string>)
    ensures ParseAddLines(lines).Ok? <==> AllAdded(lines)
    ensures AllAdded(lines) ==>
              && (ParseAddLines(lines).value == [] <==> lines == [])
              && (lines != [] ==> Join(ParseAddLines(lines).value, '\n') + "\n" == AddedText(lines))
    decreases |lines|
  {
    if lines != [] {
      AddLinesMeaning(lines[1..]);
      AddedFirst(lines);
      if AllAdded(lines) {
        var first, rest := lines[0][1..], ParseAddLines(lines[1..]).value;
        assert ([first] + rest)[1..] == rest;
        if rest != [] {
          assert first + ['\n'] + Join(rest, '\n') + "\n" == first + "\n" + (Join(rest, '\n') + "\n");
        }
      }
    }
  }

  lemma AddedFirst(lines: seq<string>)
    requires lines != []
    ensures AllAdded(lines) <==> lines[0] != "" && lines[0][0] == '+' && AllAdded(lines[1..])
  {
    assert lines == [lines[0]] + lines[1..];
  }

  /** The body of an added file is its lines with `+` in front, and every content line ends in a line feed. */
  lemma AddMeaning(lines: seq<string>, content: string)
    ensures ParseAdd(lines) == Ok(content) <==> AllAdded(lines) && content == AddedText(lines)
  {
    AddLinesMeaning(lines);
  }

  lemma HeaderIsHeader(p: FilePatch)
    ensures IsHeader(HeaderOf(p))
  {
    HeaderComesBack(p);
  }

  lemma PathMeaning(path: string)
    ensures ValidPath(path) <==> PathText(path)
  {
    forall c: char ensures IsControl(c) <==> c as int in CONTROLS {
    }
    if path != "" {
      SpacesAreWhitespace(path[|path| - 1]);
      SpacesAreWhitespace('/');
    }
  }

  lemma SpacesAreWhitespace(c: char)
    ensures IsWhitespace(c) <==> c as int in SPACES
  {
  }

  lemma SectionMeaning(section: seq<string>, p: FilePatch)
    requires section != []
    ensures ParseSection(section) == Ok(p) <==> FileText(section, p)
  {
    var header, body := section[0], section[1..];
    PathMeaning(p.path);
    HeaderComesBack(p);
    match p.operation
    case Add(content) =>
      AddMeaning(body, content);
      HeaderSplits(header, ADD_FILE);
    case Update(hunks) =>
      UpdateMeaning(body, hunks);
      HeaderSplits(header, UPDATE_FILE);
    case Delete =>
      HeaderSplits(header, DELETE_FILE);
  }

  lemma HeaderSplits(header: string, keyword: string)
    ensures keyword <= header ==> header == keyword + header[|keyword|..]
  {
  }

  lemma HunksHoldNoHeader(lines: seq<string>, hunks: seq<Hunk>, i: nat)
    requires HunksText(lines, hunks) && i < |lines|
    ensures !IsHeader(lines[i])
    decreases |hunks|
  {
    var first, tail := FirstHunk(lines, hunks);
    if i >= |first| {
      HunksHoldNoHeader(tail, hunks[1..], i - |first|);
    } else if i == 0 {
      assert lines[0] == first[0] && MarkerText(first[0], hunks[0].anchor);
      assert lines[0][0] == '@';
    } else {
      assert lines[i] == first[1..][i - 1];
      assert BodyLine(lines[i]);
    }
  }

  lemma BodyHoldsNoHeader(section: seq<string>, p: FilePatch)
    requires FileText(section, p)
    ensures forall i :: 0 <= i < |section[1..]| ==> !IsHeader(section[1..][i])
  {
    var body := section[1..];
    forall i | 0 <= i < |body| ensures !IsHeader(body[i]) {
      if p.operation.Update? {
        HunksHoldNoHeader(body, p.operation.hunks, i);
      }
    }
  }

  lemma FilesStart(lines: seq<string>, ps: seq<FilePatch>)
    requires FilesText(lines, ps)
    ensures lines == [] || IsHeader(lines[0])
  {
    if ps != [] {
      var first, tail := FirstFile(lines, ps);
      HeaderIsHeader(ps[0]);
      assert lines[0] == first[0];
    }
  }

  ghost predicate NoneSeen(ps: seq<FilePatch>, seen: set<string>) {
    forall i :: 0 <= i < |ps| ==> ps[i].path !in seen
  }

  lemma DistinctFirst(ps: seq<FilePatch>, seen: set<string>)
    requires ps != []
    ensures DistinctPaths(ps) && NoneSeen(ps, seen) <==>
              ps[0].path !in seen && DistinctPaths(ps[1..]) && NoneSeen(ps[1..], seen + {ps[0].path})
  {
    var rest := ps[1..];
    if DistinctPaths(ps) && NoneSeen(ps, seen) {
      forall i | 0 <= i < |rest| ensures rest[i].path !in seen + {ps[0].path} {
        assert rest[i] == ps[i + 1];
      }
    }
    if ps[0].path !in seen && DistinctPaths(rest) && NoneSeen(rest, seen + {ps[0].path}) {
      forall i, j | 0 <= i < j < |ps| ensures ps[i].path != ps[j].path {
        assert ps[j] == rest[j - 1];
        if i > 0 {
          assert ps[i] == rest[i - 1];
        }
      }
      forall i | 0 <= i < |ps| ensures ps[i].path !in seen {
        if i > 0 {
          assert ps[i] == rest[i - 1];
        }
      }
    }
  }

  lemma FirstFile(lines: seq<string>, ps: seq<FilePatch>) returns (first: seq<string>, tail: seq<string>)
    requires ps != [] && FilesText(lines, ps)
    ensures lines == first + tail && FileText(first, ps[0]) && FilesText(tail, ps[1..])
  {
    var n: nat :| FileEndsAt(lines, ps, n);
    first, tail := lines[..n], lines[n..];
  }

  /** The parser cuts a section exactly where the next one begins. */
  lemma SectionIsCut(first: seq<string>, p: FilePatch, tail: seq<string>)
    requires FileText(first, p) && (tail == [] || IsHeader(tail[0]))
    ensures
      var lines := first + tail;
      var n := 1 + BodyLength(lines[1..]);
      lines[..n] == first && lines[n..] == tail && ParseSection(lines[..n]) == Ok(p)
  {
    BodyHoldsNoHeader(first, p);
    BodyEnds(first[1..], tail);
    TailOfConcat(first, tail);
    SectionMeaning(first, p);
  }

  lemma TailOfConcat(first: seq<string>, tail: seq<string>)
    requires first != []
    ensures (first + tail)[1..] == first[1..] + tail
    ensures (first + tail)[..|first|] == first && (first + tail)[|first|..] == tail
  {
  }

  lemma {:induction false} FilesAreParsed(lines: seq<string>, ps: seq<FilePatch>, seen: set<string>)
    requires FilesText(lines, ps) && DistinctPaths(ps) && NoneSeen(ps, seen)
    ensures ParseSections(lines, seen) == Ok(ps)
    decreases |ps|
  {
    if ps != [] {
      var first, tail := FirstFile(lines, ps);
      DistinctFirst(ps, seen);
      FilesStart(tail, ps[1..]);
      SectionIsCut(first, ps[0], tail);
      FilesAreParsed(tail, ps[1..], seen + {ps[0].path});
      ParseFirstSection(lines, ps[0], ps[1..], seen);
      assert [ps[0]] + ps[1..] == ps;
    }
  }

  lemma {:induction false} ParsedAreFiles(lines: seq<string>, seen: set<string>)
    requires ParseSections(lines, seen).Ok?
    ensures
      var ps := ParseSections(lines, seen).value;
      FilesText(lines, ps) && DistinctPaths(ps) && NoneSeen(ps, seen)
    decreases |lines|
  {
    if lines != [] {
      var n := 1 + BodyLength(lines[1..]);
      var p := ParseSection(lines[..n]).value;
      SectionMeaning(lines[..n], p);
      ParsedAreFiles(lines[n..], seen + {p.path});
      var rest := ParseSections(lines[n..], seen + {p.path}).value;
      var ps := [p] + rest;
      assert ps[1..] == rest && FileEndsAt(lines, ps, n);
      DistinctFirst(ps, seen);
    }
  }

  /** What lines are read as: by their envelope, and then section by section. */
  function ReadLines(lines: seq<string>): Result<seq<FilePatch>, PatchError> {
    if Enveloped(lines) then ParseSections(lines[1..|lines| - 1], {}) else Err(InvalidEnvelope)
  }

  lemma LinesAreRead(input: string)
    ensures ParsePatch(input) == ReadLines(Split(StripNewline(input), '\n'))
  {
  }

  lemma SectionsMeaning(lines: seq<string>, ps: seq<FilePatch>)
    ensures ParseSections(lines, {}) == Ok(ps) <==> FilesText(lines, ps) && DistinctPaths(ps)
  {
    if ParseSections(lines, {}) == Ok(ps) {
      ParsedAreFiles(lines, {});
    }
    if FilesText(lines, ps) && DistinctPaths(ps) {
      FilesAreParsed(lines, ps, {});
    }
  }

  lemma LinesMeaning(lines: seq<string>, ps: seq<FilePatch>)
    ensures ReadLines(lines) == Ok(ps) <==> LinesText(lines, ps)
  {
    if Enveloped(lines) {
      SectionsMeaning(lines[1..|lines| - 1], ps);
    }
  }

  /**
   For every input and every list of file patches: the input is accepted as that list if and only if the grammar
   says that it is the list's text.
   */
  lemma ParserMeaning(input: string, ps: seq<FilePatch>)
    ensures ParsePatch(input) == Ok(ps) <==> PatchIs(input, ps)
  {
    LinesAreRead(input);
    LinesMeaning(Split(StripNewline(input), '\n'), ps);
  }

  // ------------------------------------------------------------------- errors

  lemma {:induction false} SectionsKnowNoEnvelope(lines: seq<string>, seen: set<string>)
    ensures ParseSections(lines, seen) != Err(InvalidEnvelope)
    decreases |lines|
  {
    if lines != [] {
      var n := 1 + BodyLength(lines[1..]);
      SectionKnowsNoEnvelope(lines[..n]);
      if ParseSection(lines[..n]).Ok? {
        SectionsKnowNoEnvelope(lines[n..], seen + {ParseSection(lines[..n]).value.path});
      }
    }
  }

  lemma SectionKnowsNoEnvelope(section: seq<string>)
    requires section != []
    ensures ParseSection(section) != Err(InvalidEnvelope)
  {
    AddKnowsNoEnvelope(section[1..]);
    HunksKnowNoEnvelope(section[1..]);
  }

  lemma {:induction false} AddKnowsNoEnvelope(lines: seq<string>)
    ensures ParseAddLines(lines) != Err(InvalidEnvelope)
    decreases |lines|
  {
    if lines != [] {
      AddKnowsNoEnvelope(lines[1..]);
    }
  }

  lemma {:induction false} ScanKnowsNoEnvelope(lines: seq<string>, o: seq<string>, n: seq<string>, changed: bool)
    ensures ScanHunk(lines, o, n, changed) != Err(InvalidEnvelope)
    decreases |lines|
  {
    if lines != [] && lines[0] != "" {
      var text := [lines[0][1..]];
      ScanKnowsNoEnvelope(lines[1..], o + text, n + text, changed);
      ScanKnowsNoEnvelope(lines[1..], o + text, n, true);
      ScanKnowsNoEnvelope(lines[1..], o, n + text, true);
    }
  }

  lemma {:induction false} HunksKnowNoEnvelope(lines: seq<string>)
    ensures ParseHunks(lines) != Err(InvalidEnvelope)
    decreases |lines|
  {
    if lines != [] {
      ScanKnowsNoEnvelope(lines[1..], [], [], false);
      if ParseHunk(lines).Ok? {
        HunksKnowNoEnvelope(ParseHunk(lines).value.1);
      }
    }
  }

  lemma EnvelopeOfLines(lines: seq<string>)
    ensures ReadLines(lines) == Err(InvalidEnvelope) <==> !Enveloped(lines)
  {
    if Enveloped(lines) {
      SectionsKnowNoEnvelope(lines[1..|lines| - 1], {});
    }
  }

  /** Without its envelope an input is refused for that, and never for that otherwise. */
  lemma EnvelopeIsChecked(input: string)
    ensures ParsePatch(input) == Err(InvalidEnvelope) <==> !Enveloped(Split(StripNewline(input), '\n'))
  {
    LinesAreRead(input);
    EnvelopeOfLines(Split(StripNewline(input), '\n'));
  }

  lemma ErrorBehindSection(lines: seq<string>, p: FilePatch, seen: set<string>, error: PatchError)
    requires lines != [] && p.path !in seen
    requires ParseSection(lines[..1 + BodyLength(lines[1..])]) == Ok(p)
    requires ParseSections(lines[1 + BodyLength(lines[1..])..], seen + {p.path}) == Err(error)
    ensures ParseSections(lines, seen) == Err(error)
  {
  }

  lemma ErrorBehindFirst(first: seq<string>, p: FilePatch, tail: seq<string>, seen: set<string>, error: PatchError)
    requires FileText(first, p) && p.path !in seen && tail != [] && IsHeader(tail[0])
    requires ParseSections(tail, seen + {p.path}) == Err(error)
    ensures ParseSections(first + tail, seen) == Err(error)
  {
    SectionIsCut(first, p, tail);
    ErrorBehindSection(first + tail, p, seen, error);
  }

  function PathsOf(ps: seq<FilePatch>): set<string> {
    set i | 0 <= i < |ps| :: ps[i].path
  }

  lemma PathsFirst(ps: seq<FilePatch>, seen: set<string>)
    requires ps != []
    ensures seen + PathsOf(ps) == seen + {ps[0].path} + PathsOf(ps[1..])
  {
    assert ps == [ps[0]] + ps[1..];
    forall x | x in PathsOf(ps) ensures x in {ps[0].path} + PathsOf(ps[1..]) {
      var i :| 0 <= i < |ps| && ps[i].path == x;
      if i > 0 {
        assert ps[1..][i - 1].path == x;
      }
    }
    forall x | x in PathsOf(ps[1..]) ensures x in PathsOf(ps) {
      var i :| 0 <= i < |ps[1..]| && ps[1..][i].path == x;
      assert ps[i + 1].path == x;
    }
  }

  /** Behind sound sections, the first error is the error of the whole. */
  lemma {:induction false} ErrorBehindSound(
    sound: seq<string>, ps: seq<FilePatch>, bad: seq<string>, seen: set<string>, error: PatchError)
    requires FilesText(sound, ps) && DistinctPaths(ps) && NoneSeen(ps, seen)
    requires bad != [] && IsHeader(bad[0]) && ParseSections(bad, seen + PathsOf(ps)) == Err(error)
    ensures ParseSections(sound + bad, seen) == Err(error)
    decreases |ps|
  {
    if ps == [] {
      assert sound + bad == bad && seen + PathsOf(ps) == seen;
    } else {
      var first, tail := FirstFile(sound, ps);
      Assoc3(first, tail, bad);
      DistinctFirst(ps, seen);
      PathsFirst(ps, seen);
      FilesStart(tail, ps[1..]);
      ErrorBehindSound(tail, ps[1..], bad, seen + {ps[0].path}, error);
      ErrorBehindFirst(first, ps[0], tail + bad, seen, error);
    }
  }

  /** Behind sound sections, one more that repeats a path is refused for that path. */
  lemma RepeatedPathIsRefused(
    sound: seq<string>, ps: seq<FilePatch>, again: seq<string>, p: FilePatch, rest: seq<string>)
    requires FilesText(sound, ps) && DistinctPaths(ps) && p.path in PathsOf(ps)
    requires FileText(again, p) && (rest == [] || IsHeader(rest[0]))
    ensures ParseSections(sound + (again + rest), {}) == Err(DuplicatePath(p.path))
  {
    SectionIsCut(again, p, rest);
    HeaderIsHeader(p);
    assert {} + PathsOf(ps) == PathsOf(ps);
    ErrorBehindSound(sound, ps, again + rest, {}, DuplicatePath(p.path));
  }

  /** Behind sound sections, the first one that is none is refused with its own error, whatever follows it. */
  lemma BadSectionIsReported(
    sound: seq<string>, ps: seq<FilePatch>, bad: seq<string>, rest: seq<string>, error: PatchError)
    requires FilesText(sound, ps) && DistinctPaths(ps)
    requires bad != [] && IsHeader(bad[0]) && (forall i :: 0 <= i < |bad[1..]| ==> !IsHeader(bad[1..][i]))
    requires (rest == [] || IsHeader(rest[0])) && ParseSection(bad) == Err(error)
    ensures ParseSections(sound + (bad + rest), {}) == Err(error)
  {
    BodyEnds(bad[1..], rest);
    TailOfConcat(bad, rest);
    ErrorBehindSound(sound, ps, bad + rest, {}, error);
  }

  /** A line of the first letters of a move. */
  predicate IsMove(line: string) {
    |line| >= 12 && line[..12] == "*** Move to:"
  }

  /** How a line that does not belong where it stands is refused. */
  function Stray(line: string): PatchError {
    if IsMove(line) then UnsupportedOperation else InvalidSection(line)
  }

  lemma StrayIsTailError(line: string)
    ensures TailError(line) == Stray(line)
  {
  }

  /** In an added file the first line without `+` is refused by name, whatever follows it. */
  lemma {:induction false} StrayInAdd(good: seq<string>, line: string, rest: seq<string>)
    requires AllAdded(good) && (line == "" || line[0] != '+')
    ensures ParseAdd(good + ([line] + rest)) == Err(Stray(line))
    decreases |good|
  {
    var lines := good + ([line] + rest);
    StrayIsTailError(line);
    if good == [] {
      assert lines == [line] + rest;
    } else {
      assert lines[0] == good[0] && lines[1..] == good[1..] + ([line] + rest);
      StrayInAdd(good[1..], line, rest);
    }
  }

  lemma {:induction false} StrayInBody(
    body: seq<string>, line: string, rest: seq<string>, o: seq<string>, n: seq<string>, changed: bool)
    requires AllBody(body) && "*** " <= line
    ensures ScanHunk(body + ([line] + rest), o, n, changed) == Err(Stray(line))
    decreases |body|
  {
    var lines := body + ([line] + rest);
    StrayIsTailError(line);
    if body == [] {
      assert lines == [line] + rest;
      assert line[0] == '*';
    } else {
      assert lines[0] == body[0] && lines[1..] == body[1..] + ([line] + rest);
      assert lines == [body[0]] + (body[1..] + ([line] + rest));
      var text, mark := [body[0][1..]], body[0][0];
      ScanOne(body[0], body[1..] + ([line] + rest), o, n, changed);
      StrayInBody(body[1..], line, rest, if mark == '+' then o else o + text, if mark == '-' then n else n + text,
                  changed || mark != ' ');
    }
  }

  /** In an update, a line like a header inside a hunk is refused by name. */
  lemma StrayInHunk(marker: string, anchor: Option<string>, body: seq<string>, line: string, rest: seq<string>)
    requires MarkerText(marker, anchor) && AllBody(body) && "*** " <= line
    ensures ParseUpdate([marker] + (body + ([line] + rest))) == Err(Stray(line))
  {
    var lines := [marker] + (body + ([line] + rest));
    assert lines[0] == marker && lines[1..] == body + ([line] + rest);
    MarkerIsRead(marker, anchor);
    StrayInBody(body, line, rest, [], [], false);
  }

  lemma ErrorBehindHunk(lines: seq<string>, h: Hunk, tail: seq<string>, error: PatchError)
    requires lines != [] && ParseHunk(lines) == Ok((h, tail)) && ParseHunks(tail) == Err(error)
    ensures ParseHunks(lines) == Err(error)
  {
  }

  /** Behind any number of sound hunks the error of the next one is reported. */
  lemma {:induction false} ErrorBehindHunks(sound: seq<string>, hunks: seq<Hunk>, bad: seq<string>, error: PatchError)
    requires HunksText(sound, hunks) && bad != [] && "@@" <= bad[0] && ParseHunks(bad) == Err(error)
    ensures ParseHunks(sound + bad) == Err(error)
    decreases |hunks|
  {
    if hunks == [] {
      assert sound + bad == bad;
    } else {
      var first, tail := FirstHunk(sound, hunks);
      Assoc3(first, tail, bad);
      HunksStartWithMarker(tail, hunks[1..]);
      HunkIsParsed(first, hunks[0], tail + bad);
      ErrorBehindHunks(tail, hunks[1..], bad, error);
      ErrorBehindHunk(first + (tail + bad), hunks[0], tail + bad, error);
    }
  }

  /** What stands in an update before its first marker, and behind a deletion, is refused by name. */
  lemma StrayInFront(line: string, rest: seq<string>, path: string)
    ensures "*** " <= line ==> ParseUpdate([line] + rest) == Err(Stray(line))
    ensures ParseSection([DELETE_FILE + path] + ([line] + rest)) == Err(Stray(line))
  {
    StrayIsTailError(line);
    HeaderComesBack(FilePatch(path, Delete));
    var section := [DELETE_FILE + path] + ([line] + rest);
    assert section[0] == DELETE_FILE + path && section[1..] == [line] + rest;
  }

  /** A hunk without an old line, or without a changed one, is refused. */
  lemma EmptyHunkIsRefused(marker: string, anchor: Option<string>, body: seq<string>, tail: seq<string>)
    requires MarkerText(marker, anchor) && AllBody(body) && (tail == [] || "@@" <= tail[0])
    requires !Carries(body, ' ', '-') || !Carries(body, '-', '+')
    ensures ParseUpdate([marker] + (body + tail)) == Err(InvalidHunk)
  {
    var lines := [marker] + (body + tail);
    assert lines[0] == marker && lines[1..] == body + tail;
    MarkerIsRead(marker, anchor);
    BodyIsScanned(body, tail, [], [], false);
    CarriedIsMarked(body, ' ', '-');
    Assoc3([], [], Marked(body, ' ', '-'));
  }
}
