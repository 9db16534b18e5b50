/** Printing then parsing is the identity; parsing only yields what can be printed. */
module PatchRoundTrip {
  import opened Basics
  import opened Splitting
  import opened PatchText

  // ------------------------------------------------------------- hunks come back

  lemma ScanMinus(x: string, rest: seq<string>, o: seq<string>, n: seq<string>, changed: bool)
    ensures ScanHunk([['-'] + x] + rest, o, n, changed) == ScanHunk(rest, o + [x], n, true)
  {
    var line, lines := ['-'] + x, [['-'] + x] + rest;
    assert line[0] == '-' && line[1..] == x;
    assert lines[0] == line && lines[1..] == rest;
    assert !("@@" <= line) && !("*** " <= line);
  }

  lemma ScanPlus(x: string, rest: seq<string>, o: seq<string>, n: seq<string>, changed: bool)
    ensures ScanHunk([['+'] + x] + rest, o, n, changed) == ScanHunk(rest, o, n + [x], true)
  {
    var line, lines := ['+'] + x, [['+'] + x] + rest;
    assert line[0] == '+' && line[1..] == x;
    assert lines[0] == line && lines[1..] == rest;
    assert !("@@" <= line) && !("*** " <= line);
  }

  lemma PrefixedParts(mark: char, xs: seq<string>, tail: seq<string>)
    requires xs != []
    ensures Prefixed(mark, xs) + tail == [[mark] + xs[0]] + (Prefixed(mark, xs[1..]) + tail)
  {
    assert Prefixed(mark, xs)[1..] == Prefixed(mark, xs[1..]);
    assert Prefixed(mark, xs)[0] == [mark] + xs[0];
    assert Prefixed(mark, xs) == [[mark] + xs[0]] + Prefixed(mark, xs)[1..];
  }

  lemma {:induction false} ScanRemoved(xs: seq<string>, tail: seq<string>, o: seq<string>, n: seq<string>, changed: bool)
    ensures ScanHunk(Prefixed('-', xs) + tail, o, n, changed) == ScanHunk(tail, o + xs, n, changed || xs != [])
    decreases |xs|
  {
    if xs == [] {
      assert Prefixed('-', xs) + tail == tail && o + xs == o;
    } else {
      PrefixedParts('-', xs, tail);
      ScanMinus(xs[0], Prefixed('-', xs[1..]) + tail, o, n, changed);
      ScanRemoved(xs[1..], tail, o + [xs[0]], n, true);
      assert o + [xs[0]] + xs[1..] == o + xs;
    }
  }

  lemma {:induction false} ScanAdded(xs: seq<string>, tail: seq<string>, o: seq<string>, n: seq<string>, changed: bool)
    ensures ScanHunk(Prefixed('+', xs) + tail, o, n, changed) == ScanHunk(tail, o, n + xs, changed || xs != [])
    decreases |xs|
  {
    if xs == [] {
      assert Prefixed('+', xs) + tail == tail && n + xs == n;
    } else {
      PrefixedParts('+', xs, tail);
      ScanPlus(xs[0], Prefixed('+', xs[1..]) + tail, o, n, changed);
      ScanAdded(xs[1..], tail, o, n + [xs[0]], true);
      assert n + [xs[0]] + xs[1..] == n + xs;
    }
  }

  function Marker(h: Hunk): string {
    if h.anchor.None? then "@@" else "@@ " + h.anchor.value
  }

  lemma MarkerComesBack(h: Hunk)
    requires WellFormedHunk(h)
    ensures "@@" <= Marker(h) && ParseMarker(Marker(h)) == Ok(h.anchor)
  {
    var m := Marker(h);
    assert m[0] == '@';
    if h.anchor.Some? {
      assert m[2] == ' ' && |m| > 3 && m[3..] == h.anchor.value;
      assert "@@ " <= m;
    }
  }

  lemma HunkBodyComesBack(h: Hunk, tail: seq<string>)
    requires WellFormedHunk(h) && (tail == [] || "@@" <= tail[0])
    ensures ScanHunk(Prefixed('-', h.oldLines) + (Prefixed('+', h.newLines) + tail), [], [], false)
         == Ok(Scanned(h.oldLines, h.newLines, true, tail))
  {
    ScanRemoved(h.oldLines, Prefixed('+', h.newLines) + tail, [], [], false);
    ScanAdded(h.newLines, tail, h.oldLines, [], true);
    assert [] + h.oldLines == h.oldLines && [] + h.newLines == h.newLines;
  }

  lemma HunkParts(h: Hunk, tail: seq<string>)
    ensures
      var lines := PrintHunk(h) + tail;
      lines[0] == Marker(h) && lines[1..] == Prefixed('-', h.oldLines) + (Prefixed('+', h.newLines) + tail)
  {
  }

  lemma HunkComesBack(h: Hunk, tail: seq<string>)
    requires WellFormedHunk(h) && (tail == [] || "@@" <= tail[0])
    ensures ParseHunk(PrintHunk(h) + tail) == Ok((h, tail))
  {
    MarkerComesBack(h);
    HunkParts(h, tail);
    HunkBodyComesBack(h, tail);
  }

  lemma {:induction false} HunksComeBack(hunks: seq<Hunk>)
    requires forall i :: 0 <= i < |hunks| ==> WellFormedHunk(hunks[i])
    ensures ParseHunks(PrintHunks(hunks)) == Ok(hunks)
  {
    if hunks != [] {
      var tail := PrintHunks(hunks[1..]);
      HunksComeBack(hunks[1..]);
      if |hunks| > 1 {
        MarkerComesBack(hunks[1]);
        assert tail[0] == Marker(hunks[1]);
      }
      HunkComesBack(hunks[0], tail);
      assert hunks == [hunks[0]] + hunks[1..];
    }
  }

  // ------------------------------------------------------------ sections come back

  lemma {:induction false} AddLinesComeBack(xs: seq<string>)
    ensures ParseAddLines(Prefixed('+', xs)) == Ok(xs)
  {
    if xs != [] {
      assert Prefixed('+', xs)[1..] == Prefixed('+', xs[1..]);
      assert Prefixed('+', xs)[0] == "+" + xs[0] && ("+" + xs[0])[1..] == xs[0];
      AddLinesComeBack(xs[1..]);
      assert xs == [xs[0]] + xs[1..];
    }
  }

  lemma AddComesBack(content: string)
    requires content == "" || content[|content| - 1] == '\n'
    ensures ParseAdd(PrintBody(Add(content))) == Ok(content)
  {
    if content != "" {
      var lines := Split(StripNewline(content), '\n');
      AddLinesComeBack(lines);
      JoinOfSplit(StripNewline(content), '\n');
      assert content == content[..|content| - 1] + "\n";
    }
  }

  lemma HeaderComesBack(p: FilePatch)
    ensures
      var h := HeaderOf(p);
      match p.operation
      case Add(_) => ADD_FILE <= h && h[|ADD_FILE|..] == p.path
      case Update(_) => !(ADD_FILE <= h) && UPDATE_FILE <= h && h[|UPDATE_FILE|..] == p.path
      case Delete => !(ADD_FILE <= h) && !(UPDATE_FILE <= h) && DELETE_FILE <= h && h[|DELETE_FILE|..] == p.path
  {
    var h := HeaderOf(p);
    assert ADD_FILE[4] == 'A';
    match p.operation
    case Add(_) =>
    case Update(_) => assert h[4] == 'U';
    case Delete => assert h[4] == 'D'; assert UPDATE_FILE[4] == 'U';
  }

  lemma SectionComesBack(p: FilePatch)
    requires WellFormedFile(p)
    ensures ParseSection(PrintFile(p)) == Ok(p)
  {
    var section := PrintFile(p);
    assert section[0] == HeaderOf(p) && section[1..] == PrintBody(p.operation);
    HeaderComesBack(p);
    match p.operation
    case Add(content) => AddComesBack(content);
    case Update(hunks) =>
      HunksComeBack(hunks);
      assert PrintHunks(hunks)[0] == Marker(hunks[0]);
    case Delete =>
  }

  /** No printed body line looks like a section header. */
  lemma BodyIsPlain(op: Operation)
    ensures forall i :: 0 <= i < |PrintBody(op)| ==> !IsHeader(PrintBody(op)[i])
  {
    match op
    case Add(content) =>
      forall i | 0 <= i < |PrintBody(op)| ensures !IsHeader(PrintBody(op)[i]) {
        assert PrintBody(op)[i][0] == '+';
      }
    case Update(hunks) => HunksArePlain(hunks);
    case Delete =>
  }

  lemma {:induction false} HunksArePlain(hunks: seq<Hunk>)
    ensures forall i :: 0 <= i < |PrintHunks(hunks)| ==> !IsHeader(PrintHunks(hunks)[i])
  {
    if hunks != [] {
      HunksArePlain(hunks[1..]);
      var h := hunks[0];
      var first := PrintHunk(h);
      forall i | 0 <= i < |first| ensures !IsHeader(first[i]) {
        assert first[i][0] == '@' || first[i][0] == '-' || first[i][0] == '+';
      }
    }
  }

  lemma {:induction false} BodyEnds(body: seq<string>, tail: seq<string>)
    requires forall i :: 0 <= i < |body| ==> !IsHeader(body[i])
    requires tail == [] || IsHeader(tail[0])
    ensures BodyLength(body + tail) == |body|
  {
    if body == [] {
      assert body + tail == tail;
    } else {
      assert (body + tail)[1..] == body[1..] + tail;
      BodyEnds(body[1..], tail);
    }
  }

  lemma FilesParts(p: FilePatch, tail: seq<string>)
    ensures
      var lines, body := PrintFile(p) + tail, PrintBody(p.operation);
      lines != [] && lines[1..] == body + tail && lines[..1 + |body|] == PrintFile(p) && lines[1 + |body|..] == tail
  {
  }

  lemma FirstSectionEnds(p: FilePatch, tail: seq<string>)
    requires tail == [] || IsHeader(tail[0])
    ensures
      var lines := PrintFile(p) + tail;
      var n := 1 + BodyLength(lines[1..]);
      lines[..n] == PrintFile(p) && lines[n..] == tail
  {
    FilesParts(p, tail);
    BodyIsPlain(p.operation);
    BodyEnds(PrintBody(p.operation), tail);
  }

  lemma FilesStartWithHeader(ps: seq<FilePatch>)
    ensures PrintFiles(ps) == [] || IsHeader(PrintFiles(ps)[0])
  {
    if ps != [] {
      HeaderComesBack(ps[0]);
    }
  }

  lemma ParseFirstSection(lines: seq<string>, p: FilePatch, rest: seq<FilePatch>, seen: set<string>)
    requires lines != [] && p.path !in seen
    requires ParseSection(lines[..1 + BodyLength(lines[1..])]) == Ok(p)
    requires ParseSections(lines[1 + BodyLength(lines[1..])..], seen + {p.path}) == Ok(rest)
    ensures ParseSections(lines, seen) == Ok([p] + rest)
  {
  }

  lemma {:induction false} SectionsComeBack(ps: seq<FilePatch>, seen: set<string>)
    requires DistinctPaths(ps) && forall i :: 0 <= i < |ps| ==> WellFormedFile(ps[i]) && ps[i].path !in seen
    ensures ParseSections(PrintFiles(ps), seen) == Ok(ps)
    decreases |ps|
  {
    if ps != [] {
      FilesStartWithHeader(ps[1..]);
      FirstSectionEnds(ps[0], PrintFiles(ps[1..]));
      SectionComesBack(ps[0]);
      SectionsComeBack(ps[1..], seen + {ps[0].path});
      ParseFirstSection(PrintFile(ps[0]) + PrintFiles(ps[1..]), ps[0], ps[1..], seen);
      assert ps == [ps[0]] + ps[1..];
    }
  }

  // ------------------------------------------------------------- the whole patch

  lemma AllFreeConcat(a: seq<string>, b: seq<string>)
    requires AllFree(a, '\n') && AllFree(b, '\n')
    ensures AllFree(a + b, '\n')
  {
  }

  lemma PrefixedIsFree(mark: char, lines: seq<string>)
    requires mark != '\n' && AllFree(lines, '\n')
    ensures AllFree(Prefixed(mark, lines), '\n')
  {
    forall i | 0 <= i < |lines| ensures Free(Prefixed(mark, lines)[i], '\n') {
      assert Free(lines[i], '\n');
    }
  }

  lemma {:induction false} HunksAreFree(hunks: seq<Hunk>)
    requires forall i :: 0 <= i < |hunks| ==> WellFormedHunk(hunks[i])
    ensures AllFree(PrintHunks(hunks), '\n')
  {
    if hunks != [] {
      var h := hunks[0];
      HunksAreFree(hunks[1..]);
      PrefixedIsFree('-', h.oldLines);
      PrefixedIsFree('+', h.newLines);
      assert Free(Marker(h), '\n');
      AllFreeConcat([Marker(h)], Prefixed('-', h.oldLines));
      AllFreeConcat([Marker(h)] + Prefixed('-', h.oldLines), Prefixed('+', h.newLines));
      AllFreeConcat(PrintHunk(h), PrintHunks(hunks[1..]));
    }
  }

  lemma FileIsFree(p: FilePatch)
    requires WellFormedFile(p)
    ensures AllFree(PrintFile(p), '\n')
  {
    assert Free(p.path, '\n') by {
      assert IsControl('\n');
    }
    assert Free(HeaderOf(p), '\n');
    match p.operation
    case Add(content) =>
      SplitIsFree(StripNewline(content), '\n');
      PrefixedIsFree('+', Split(StripNewline(content), '\n'));
    case Update(hunks) => HunksAreFree(hunks);
    case Delete =>
  }

  lemma {:induction false} FilesAreFree(ps: seq<FilePatch>)
    requires forall i :: 0 <= i < |ps| ==> WellFormedFile(ps[i])
    ensures AllFree(PrintFiles(ps), '\n')
  {
    if ps != [] {
      FileIsFree(ps[0]);
      FilesAreFree(ps[1..]);
      AllFreeConcat(PrintFile(ps[0]), PrintFiles(ps[1..]));
    }
  }

  lemma PrintedLines(ps: seq<FilePatch>)
    requires WellFormed(ps)
    ensures Split(PrintPatch(ps), '\n') == [BEGIN_PATCH] + PrintFiles(ps) + [END_PATCH]
    ensures PrintPatch(ps) != "" && PrintPatch(ps)[|PrintPatch(ps)| - 1] == 'h'
  {
    FilesAreFree(ps);
    AllFreeConcat([BEGIN_PATCH], PrintFiles(ps));
    AllFreeConcat([BEGIN_PATCH] + PrintFiles(ps), [END_PATCH]);
    SplitOfJoin([BEGIN_PATCH] + PrintFiles(ps) + [END_PATCH], '\n');
    JoinSnoc([BEGIN_PATCH] + PrintFiles(ps), END_PATCH, '\n');
  }

  /**
   Every well-formed patch list is the parse of its canonical printing, whether or
   not a final newline is added, even when content lines look like headers.
   */
  lemma PrintThenParse(ps: seq<FilePatch>)
    requires WellFormed(ps)
    ensures ParsePatch(PrintPatch(ps)) == Ok(ps)
    ensures ParsePatch(PrintPatch(ps) + "\n") == Ok(ps)
  {
    PrintedLines(ps);
    var text := PrintPatch(ps);
    assert StripNewline(text) == text;
    assert (text + "\n")[..|text|] == text;
    assert PrintFiles(ps) != [];
    EnvelopeComesBack(text, PrintFiles(ps));
    EnvelopeComesBack(text + "\n", PrintFiles(ps));
    SectionsComeBack(ps, {});
  }

  lemma EnvelopeComesBack(text: string, body: seq<string>)
    requires body != [] && Split(StripNewline(text), '\n') == [BEGIN_PATCH] + body + [END_PATCH]
    ensures ParsePatch(text) == ParseSections(body, {})
  {
    var lines := [BEGIN_PATCH] + body + [END_PATCH];
    assert lines[1..|lines| - 1] == body;
  }

  // ------------------------------------------------ a parse can always be printed

  lemma FreeTail(lines: seq<string>)
    requires lines != [] && AllFree(lines, '\n')
    ensures AllFree(lines[1..], '\n')
    ensures lines[0] != "" ==> Free(lines[0][1..], '\n')
  {
    assert Free(lines[0], '\n');
    forall i | 0 <= i < |lines[1..]| ensures Free(lines[1..][i], '\n') {
      assert Free(lines[i + 1], '\n');
    }
  }

  lemma {:induction false} ScanStaysFree(lines: seq<string>, o: seq<string>, n: seq<string>, changed: bool)
    requires AllFree(lines, '\n') && AllFree(o, '\n') && AllFree(n, '\n')
    requires ScanHunk(lines, o, n, changed).Ok?
    ensures
      var r := ScanHunk(lines, o, n, changed).value;
      AllFree(r.oldLines, '\n') && AllFree(r.newLines, '\n') && AllFree(r.rest, '\n')
    decreases |lines|
  {
    if lines != [] && !("@@" <= lines[0]) {
      FreeTail(lines);
      var text := lines[0][1..];
      AllFreeConcat(o, [text]);
      AllFreeConcat(n, [text]);
      if lines[0][0] == ' ' {
        ScanStaysFree(lines[1..], o + [text], n + [text], changed);
      } else if lines[0][0] == '-' {
        ScanStaysFree(lines[1..], o + [text], n, true);
      } else {
        ScanStaysFree(lines[1..], o, n + [text], true);
      }
    }
  }

  lemma ParsedHunkIsWellFormed(lines: seq<string>)
    requires lines != [] && AllFree(lines, '\n') && ParseHunk(lines).Ok?
    ensures WellFormedHunk(ParseHunk(lines).value.0) && AllFree(ParseHunk(lines).value.1, '\n')
  {
    FreeTail(lines);
    assert Free(lines[0], '\n');
    ScanStaysFree(lines[1..], [], [], false);
  }

  lemma {:induction false} ParsedHunksAreWellFormed(lines: seq<string>)
    requires AllFree(lines, '\n') && ParseHunks(lines).Ok?
    ensures forall i :: 0 <= i < |ParseHunks(lines).value| ==> WellFormedHunk(ParseHunks(lines).value[i])
    ensures lines != [] ==> ParseHunks(lines).value != []
    decreases |lines|
  {
    if lines != [] {
      ParsedHunkIsWellFormed(lines);
      ParsedHunksAreWellFormed(ParseHunk(lines).value.1);
    }
  }

  lemma ParsedSectionIsWellFormed(section: seq<string>)
    requires section != [] && AllFree(section, '\n') && ParseSection(section).Ok?
    ensures WellFormedFile(ParseSection(section).value)
  {
    FreeTail(section);
    if !(ADD_FILE <= section[0]) && UPDATE_FILE <= section[0] {
      ParsedHunksAreWellFormed(section[1..]);
    }
  }

  lemma SlicesAreFree(lines: seq<string>, n: nat)
    requires n <= |lines| && AllFree(lines, '\n')
    ensures AllFree(lines[..n], '\n') && AllFree(lines[n..], '\n')
  {
    assert forall i :: 0 <= i < n ==> lines[..n][i] == lines[i];
    assert forall i :: 0 <= i < |lines| - n ==> lines[n..][i] == lines[n + i];
  }

  ghost predicate AvoidsPaths(ps: seq<FilePatch>, seen: set<string>) {
    forall i :: 0 <= i < |ps| ==> WellFormedFile(ps[i]) && ps[i].path !in seen
  }

  lemma {:induction false} ParsedSectionsAreWellFormed(lines: seq<string>, seen: set<string>)
    requires AllFree(lines, '\n') && ParseSections(lines, seen).Ok?
    ensures AvoidsPaths(ParseSections(lines, seen).value, seen) && DistinctPaths(ParseSections(lines, seen).value)
    ensures lines != [] ==> ParseSections(lines, seen).value != []
    decreases |lines|
  {
    if lines != [] {
      var n := 1 + BodyLength(lines[1..]);
      SlicesAreFree(lines, n);
      ParsedSectionIsWellFormed(lines[..n]);
      var p := ParseSection(lines[..n]).value;
      ParsedSectionsAreWellFormed(lines[n..], seen + {p.path});
      var rest := ParseSections(lines[n..], seen + {p.path}).value;
      assert ParseSections(lines, seen).value == [p] + rest;
      ConsIsWellFormed(p, rest, seen);
    }
  }

  lemma ConsIsWellFormed(p: FilePatch, rest: seq<FilePatch>, seen: set<string>)
    requires WellFormedFile(p) && p.path !in seen
    requires AvoidsPaths(rest, seen + {p.path}) && DistinctPaths(rest)
    ensures AvoidsPaths([p] + rest, seen) && DistinctPaths([p] + rest)
  {
  }

  /** Whatever parses is well formed: valid distinct paths, non-empty hunks, lines without newlines. */
  lemma ParsedIsWellFormed(input: string)
    requires ParsePatch(input).Ok?
    ensures WellFormed(ParsePatch(input).value)
  {
    var lines := Split(StripNewline(input), '\n');
    SplitIsFree(StripNewline(input), '\n');
    SlicesAreFree(lines, |lines| - 1);
    SlicesAreFree(lines[..|lines| - 1], 1);
    assert lines[..|lines| - 1][1..] == lines[1..|lines| - 1];
    ParsedSectionsAreWellFormed(lines[1..|lines| - 1], {});
  }

  /** Printing a parse and parsing it again changes nothing. */
  lemma ParsePrintParse(input: string)
    requires ParsePatch(input).Ok?
    ensures ParsePatch(PrintPatch(ParsePatch(input).value)) == ParsePatch(input)
  {
    ParsedIsWellFormed(input);
    PrintThenParse(ParsePatch(input).value);
  }
}
