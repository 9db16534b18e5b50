/** The parser's loops, proved equal to the parsing functions (src/patch.rs). */
module PatchParser {
  import opened Basics
  import opened Splitting
  import opened PatchText

  /** Items already collected, followed by the outcome for what is left. */
  function Prepend<T>(done: seq<T>, rest: Result<seq<T>, PatchError>): Result<seq<T>, PatchError> {
    if rest.Err? then rest else Ok(done + rest.value)
  }

  lemma PrependNothing<T>(rest: Result<seq<T>, PatchError>)
    ensures Prepend([], rest) == rest
  {
    if rest.Ok? {
      assert [] + rest.value == rest.value;
    }
  }

  lemma PrependOne<T>(done: seq<T>, x: T, rest: Result<seq<T>, PatchError>)
    ensures Prepend(done, Prepend([x], rest)) == Prepend(done + [x], rest)
  {
    if rest.Ok? {
      assert done + ([x] + rest.value) == done + [x] + rest.value;
    }
  }

  lemma PrependToEmpty<T>(done: seq<T>)
    ensures Prepend(done, Ok([])) == Ok(done)
  {
    assert done + [] == done;
  }

  method ParseAddLoop(lines: seq<string>) returns (r: Result<string, PatchError>)
    ensures r == ParseAdd(lines)
  {
    var content: seq<string> := [];
    var i := 0;
    assert lines[0..] == lines;
    PrependNothing(ParseAddLines(lines));
    while i < |lines|
      invariant 0 <= i <= |lines|
      invariant ParseAddLines(lines) == Prepend(content, ParseAddLines(lines[i..]))
    {
      var line := lines[i];
      if line == "" || line[0] != '+' {
        return Err(TailError(line));
      }
      assert lines[i..][1..] == lines[i + 1..];
      PrependOne(content, line[1..], ParseAddLines(lines[i + 1..]));
      content := content + [line[1..]];
      i := i + 1;
    }
    PrependToEmpty(content);
    if content == [] {
      return Ok("");
    }
    return Ok(Join(content, '\n') + "\n");
  }

  /** The inner loop: the lines of one hunk, starting at `from`. */
  method ScanHunkLoop(lines: seq<string>, from: nat)
    returns (r: Result<(seq<string>, seq<string>, bool), PatchError>, index: nat)
    requires from <= |lines|
    ensures from <= index <= |lines|
    ensures
      var spec := ScanHunk(lines[from..], [], [], false);
      if r.Err? then spec == Err(r.error)
      else spec == Ok(Scanned(r.value.0, r.value.1, r.value.2, lines[index..]))
  {
    var oldLines: seq<string>, newLines: seq<string>, changed := [], [], false;
    index := from;
    while index < |lines| && !("@@" <= lines[index])
      invariant from <= index <= |lines|
      invariant ScanHunk(lines[from..], [], [], false) == ScanHunk(lines[index..], oldLines, newLines, changed)
    {
      var line := lines[index];
      if "*** " <= line {
        return Err(TailError(line)), index;
      }
      if line == "" {
        return Err(InvalidHunk), index;
      }
      assert lines[index..][1..] == lines[index + 1..];
      var text := line[1..];
      match line[0] {
        case ' ' =>
          oldLines, newLines := oldLines + [text], newLines + [text];
        case '-' =>
          oldLines, changed := oldLines + [text], true;
        case '+' =>
          newLines, changed := newLines + [text], true;
        case _ =>
          return Err(InvalidHunk), index;
      }
      index := index + 1;
    }
    r := Ok((oldLines, newLines, changed));
  }

  method ParseUpdateLoop(lines: seq<string>) returns (r: Result<seq<Hunk>, PatchError>)
    ensures r == ParseUpdate(lines)
  {
    if lines == [] {
      return Err(InvalidHunk);
    }
    var hunks: seq<Hunk> := [];
    var index := 0;
    assert lines[0..] == lines;
    PrependNothing(ParseHunks(lines));
    while index < |lines|
      invariant 0 <= index <= |lines|
      invariant ParseHunks(lines) == Prepend(hunks, ParseHunks(lines[index..]))
    {
      var anchor := ParseMarker(lines[index]);
      if anchor.Err? {
        return Err(anchor.error);
      }
      var body, next := ScanHunkLoop(lines, index + 1);
      assert lines[index..][1..] == lines[index + 1..];
      if body.Err? {
        return Err(body.error);
      }
      if body.value.0 == [] || !body.value.2 {
        return Err(InvalidHunk);
      }
      var hunk := Hunk(anchor.value, body.value.0, body.value.1);
      assert ParseHunk(lines[index..]) == Ok((hunk, lines[next..]));
      PrependOne(hunks, hunk, ParseHunks(lines[next..]));
      hunks := hunks + [hunk];
      index := next;
    }
    PrependToEmpty(hunks);
    r := Ok(hunks);
  }

  method ParseSectionLoop(section: seq<string>) returns (r: Result<FilePatch, PatchError>)
    requires section != []
    ensures r == ParseSection(section)
  {
    var header, body := section[0], section[1..];
    var path: string;
    var operation: Operation;
    if ADD_FILE <= header {
      var content := ParseAddLoop(body);
      if content.Err? {
        return Err(content.error);
      }
      path, operation := header[|ADD_FILE|..], Add(content.value);
    } else if UPDATE_FILE <= header {
      var hunks := ParseUpdateLoop(body);
      if hunks.Err? {
        return Err(hunks.error);
      }
      path, operation := header[|UPDATE_FILE|..], Update(hunks.value);
    } else if DELETE_FILE <= header {
      if body != [] {
        return Err(TailError(body[0]));
      }
      path, operation := header[|DELETE_FILE|..], Delete;
    } else {
      return Err(TailError(header));
    }
    if !ValidPath(path) {
      return Err(InvalidPath);
    }
    r := Ok(FilePatch(path, operation));
  }

  /** The lines after `start` hold no header up to (but not including) `end`. */
  ghost predicate InBody(lines: seq<string>, start: nat, end: nat)
    requires start < end <= |lines|
  {
    BodyLength(lines[start + 1..]) >= end - start - 1
  }

  ghost predicate SectionAt(lines: seq<string>, start: nat, end: nat)
    requires start < end <= |lines|
  {
    BodyLength(lines[start + 1..]) == end - start - 1
  }

  lemma BodyGrows(lines: seq<string>, start: nat, end: nat)
    requires start < end < |lines| && InBody(lines, start, end)
    ensures IsHeader(lines[end]) ==> SectionAt(lines, start, end)
    ensures !IsHeader(lines[end]) ==> InBody(lines, start, end + 1)
  {
    var rest, n := lines[start + 1..], BodyLength(lines[start + 1..]);
    assert rest[end - start - 1] == lines[end];
    assert n > end - start - 1 ==> !IsHeader(rest[end - start - 1]);
    assert n == end - start - 1 ==> IsHeader(rest[n]);
  }

  lemma SectionStep(lines: seq<string>, start: nat, end: nat, paths: set<string>)
    requires start < end <= |lines| && SectionAt(lines, start, end)
    ensures
      var patch := ParseSection(lines[start..end]);
      ParseSections(lines[start..], paths) ==
        if patch.Err? then Err(patch.error)
        else if patch.value.path in paths then Err(DuplicatePath(patch.value.path))
        else Prepend([patch.value], ParseSections(lines[end..], paths + {patch.value.path}))
  {
    var rest, n := lines[start..], end - start;
    assert rest[1..] == lines[start + 1..];
    assert rest[..n] == lines[start..end] && rest[n..] == lines[end..];
  }

  /** Parses the section between two headers and checks its path against the earlier ones. */
  method TakeSection(
    lines: seq<string>, start: nat, end: nat, patches: seq<FilePatch>, paths: set<string>,
    ghost spec: Result<seq<FilePatch>, PatchError>)
    returns (r: Result<FilePatch, PatchError>)
    requires start < end <= |lines| && SectionAt(lines, start, end)
    requires spec == Prepend(patches, ParseSections(lines[start..], paths))
    ensures r.Err? ==> spec == Err(r.error)
    ensures r.Ok? ==> spec == Prepend(patches + [r.value], ParseSections(lines[end..], paths + {r.value.path}))
  {
    SectionStep(lines, start, end, paths);
    r := ParseSectionLoop(lines[start..end]);
    if r.Ok? {
      if r.value.path in paths {
        return Err(DuplicatePath(r.value.path));
      }
      PrependOne(patches, r.value, ParseSections(lines[end..], paths + {r.value.path}));
    }
  }

  /** The loop over lines that cuts the patch into sections. */
  method ParseSectionsLoop(lines: seq<string>) returns (r: Result<seq<FilePatch>, PatchError>)
    requires lines != []
    ensures r == ParseSections(lines, {})
  {
    var patches: seq<FilePatch> := [];
    var paths: set<string> := {};
    var start, end := 0, 1;
    ghost var spec := ParseSections(lines, {});
    assert lines[0..] == lines;
    PrependNothing(spec);
    while end <= |lines|
      invariant 0 <= start < end <= |lines| + 1 && start <= |lines|
      invariant if end == |lines| + 1 then start == |lines| else InBody(lines, start, end)
      invariant spec == Prepend(patches, ParseSections(lines[start..], paths))
    {
      if end < |lines| {
        BodyGrows(lines, start, end);
      }
      if end == |lines| || IsHeader(lines[end]) {
        var patch := TakeSection(lines, start, end, patches, paths, spec);
        if patch.Err? {
          return Err(patch.error);
        }
        patches, paths, start := patches + [patch.value], paths + {patch.value.path}, end;
      }
      end := end + 1;
    }
    assert lines[start..] == [];
    PrependToEmpty(patches);
    r := Ok(patches);
  }

  method ParsePatchLoop(input: string) returns (r: Result<seq<FilePatch>, PatchError>)
    ensures r == ParsePatch(input)
  {
    var lines := Split(StripNewline(input), '\n');
    if lines[0] != BEGIN_PATCH || lines[|lines| - 1] != END_PATCH || |lines| < 3 {
      return Err(InvalidEnvelope);
    }
    r := ParseSectionsLoop(lines[1..|lines| - 1]);
  }
}
