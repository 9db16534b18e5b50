/** The patch language: parsing, canonical printing, and their round trip (src/patch.rs). */
module PatchText {
  import opened Basics
  import opened Splitting

  const BEGIN_PATCH := "*** Begin Patch"
  const END_PATCH := "*** End Patch"
  const ADD_FILE := "*** Add File: "
  const UPDATE_FILE := "*** Update File: "
  const DELETE_FILE := "*** Delete File: "
  const MOVE_TO := "*** Move to:"

  datatype Hunk = Hunk(anchor: Option<string>, oldLines: seq<string>, newLines: seq<string>)

  datatype Operation = Add(content: string) | Update(hunks: seq<Hunk>) | Delete

  datatype FilePatch = FilePatch(path: string, operation: Operation)

  datatype PatchError =
    | InvalidEnvelope
    | InvalidSection(line: string)
    | DuplicatePath(path: string)
    | UnsupportedOperation
    | InvalidPath
    | InvalidHunk
    | AlreadyExists(path: string)
    | NotFound(path: string)
    | ContextNotFound(hunk: nat)
    | AmbiguousContext(hunk: nat)

  // ------------------------------------------------------------------- paths

  predicate IsControl(c: char) {
    c < ' ' || '\U{7F}' <= c <= '\U{9F}'
  }

  predicate IsWhitespace(c: char) {
    || '\U{9}' <= c <= '\U{D}' || c == ' ' || c == '\U{85}' || c == '\U{A0}' || c == '\U{1680}'
    || '\U{2000}' <= c <= '\U{200A}' || c == '\U{2028}' || c == '\U{2029}' || c == '\U{202F}'
    || c == '\U{205F}' || c == '\U{3000}'
  }

  /** An absolute path of a file, without control characters or surrounding whitespace. */
  predicate ValidPath(path: string) {
    && path != ""
    && !IsWhitespace(path[0]) && !IsWhitespace(path[|path| - 1])
    && (forall i :: 0 <= i < |path| ==> !IsControl(path[i]))
    && path[0] == '/' && path[|path| - 1] != '/'
  }

  // ------------------------------------------------------------------ parsing

  predicate IsHeader(line: string) {
    ADD_FILE <= line || UPDATE_FILE <= line || DELETE_FILE <= line
  }

  function TailError(line: string): PatchError {
    if MOVE_TO <= line then UnsupportedOperation else InvalidSection(line)
  }

  function ParseAddLines(lines: seq<string>): Result<seq<string>, PatchError> {
    if lines == [] then Ok([])
    else if lines[0] == "" || lines[0][0] != '+' then Err(TailError(lines[0]))
    else
      var rest := ParseAddLines(lines[1..]);
      if rest.Err? then rest else Ok([lines[0][1..]] + rest.value)
  }

  function ParseAdd(lines: seq<string>): Result<string, PatchError> {
    var content := ParseAddLines(lines);
    if content.Err? then Err(content.error)
    else if content.value == [] then Ok("")
    else Ok(Join(content.value, '\n') + "\n")
  }

  datatype Scanned = Scanned(oldLines: seq<string>, newLines: seq<string>, changed: bool, rest: seq<string>)

  /** The lines of one hunk, up to the next marker. */
  function ScanHunk(lines: seq<string>, o: seq<string>, n: seq<string>, changed: bool): (r: Result<Scanned, PatchError>)
    ensures r.Ok? ==> |r.value.rest| <= |lines|
    decreases |lines|
  {
    if lines == [] || "@@" <= lines[0] then Ok(Scanned(o, n, changed, lines))
    else
      var line := lines[0];
      if "*** " <= line then Err(TailError(line))
      else if line == "" then Err(InvalidHunk)
      else
        var text := line[1..];
        if line[0] == ' ' then ScanHunk(lines[1..], o + [text], n + [text], changed)
        else if line[0] == '-' then ScanHunk(lines[1..], o + [text], n, true)
        else if line[0] == '+' then ScanHunk(lines[1..], o, n + [text], true)
        else Err(InvalidHunk)
  }

  /** The anchor that a hunk's marker line carries. */
  function ParseMarker(marker: string): Result<Option<string>, PatchError> {
    if "*** " <= marker then Err(TailError(marker))
    else if marker == "@@" then Ok(None)
    else if "@@ " <= marker && |marker| > 3 then Ok(Some(marker[3..]))
    else Err(InvalidHunk)
  }

  function ParseHunk(lines: seq<string>): (r: Result<(Hunk, seq<string>), PatchError>)
    requires lines != []
    ensures r.Ok? ==> |r.value.1| < |lines|
  {
    var anchor := ParseMarker(lines[0]);
    if anchor.Err? then Err(anchor.error)
    else
      var body := ScanHunk(lines[1..], [], [], false);
      if body.Err? then Err(body.error)
      else if body.value.oldLines == [] || !body.value.changed then Err(InvalidHunk)
      else Ok((Hunk(anchor.value, body.value.oldLines, body.value.newLines), body.value.rest))
  }

  function ParseHunks(lines: seq<string>): Result<seq<Hunk>, PatchError>
    decreases |lines|
  {
    if lines == [] then Ok([])
    else
      var first := ParseHunk(lines);
      if first.Err? then Err(first.error)
      else
        var rest := ParseHunks(first.value.1);
        if rest.Err? then rest else Ok([first.value.0] + rest.value)
  }

  function ParseUpdate(lines: seq<string>): Result<seq<Hunk>, PatchError> {
    if lines == [] then Err(InvalidHunk) else ParseHunks(lines)
  }

  function ParseOperation(header: string, body: seq<string>): Result<(string, Operation), PatchError> {
    if ADD_FILE <= header then
      var content := ParseAdd(body);
      if content.Err? then Err(content.error) else Ok((header[|ADD_FILE|..], Add(content.value)))
    else if UPDATE_FILE <= header then
      var hunks := ParseUpdate(body);
      if hunks.Err? then Err(hunks.error) else Ok((header[|UPDATE_FILE|..], Update(hunks.value)))
    else if DELETE_FILE <= header then
      if body != [] then Err(TailError(body[0])) else Ok((header[|DELETE_FILE|..], Delete))
    else Err(TailError(header))
  }

  function ParseSection(section: seq<string>): Result<FilePatch, PatchError>
    requires section != []
  {
    var parsed := ParseOperation(section[0], section[1..]);
    if parsed.Err? then Err(parsed.error)
    else if !ValidPath(parsed.value.0) then Err(InvalidPath)
    else Ok(FilePatch(parsed.value.0, parsed.value.1))
  }

  /** How many lines precede the next section header. */
  function BodyLength(lines: seq<string>): (n: nat)
    ensures n <= |lines| && (forall i :: 0 <= i < n ==> !IsHeader(lines[i]))
    ensures n < |lines| ==> IsHeader(lines[n])
  {
    if lines == [] || IsHeader(lines[0]) then 0 else 1 + BodyLength(lines[1..])
  }

  function ParseSections(lines: seq<string>, seen: set<string>): Result<seq<FilePatch>, PatchError>
    decreases |lines|
  {
    if lines == [] then Ok([])
    else
      var n := 1 + BodyLength(lines[1..]);
      var patch := ParseSection(lines[..n]);
      if patch.Err? then Err(patch.error)
      else if patch.value.path in seen then Err(DuplicatePath(patch.value.path))
      else
        var rest := ParseSections(lines[n..], seen + {patch.value.path});
        if rest.Err? then rest else Ok([patch.value] + rest.value)
  }

  function StripNewline(s: string): string {
    if s != "" && s[|s| - 1] == '\n' then s[..|s| - 1] else s
  }

  function ParsePatch(input: string): Result<seq<FilePatch>, PatchError> {
    var lines := Split(StripNewline(input), '\n');
    if lines[0] != BEGIN_PATCH || lines[|lines| - 1] != END_PATCH || |lines| < 3 then Err(InvalidEnvelope)
    else ParseSections(lines[1..|lines| - 1], {})
  }

  // ----------------------------------------------------------------- printing

  function Prefixed(mark: char, lines: seq<string>): (r: seq<string>)
    ensures |r| == |lines|
    ensures forall i :: 0 <= i < |lines| ==> r[i] == [mark] + lines[i]
  {
    seq(|lines|, i requires 0 <= i < |lines| => [mark] + lines[i])
  }

  function PrintHunk(h: Hunk): seq<string> {
    [if h.anchor.None? then "@@" else "@@ " + h.anchor.value]
    + Prefixed('-', h.oldLines) + Prefixed('+', h.newLines)
  }

  function PrintHunks(hunks: seq<Hunk>): seq<string> {
    if hunks == [] then [] else PrintHunk(hunks[0]) + PrintHunks(hunks[1..])
  }

  function PrintBody(op: Operation): seq<string> {
    match op
    case Add(content) => if content == "" then [] else Prefixed('+', Split(StripNewline(content), '\n'))
    case Update(hunks) => PrintHunks(hunks)
    case Delete => []
  }

  function HeaderOf(p: FilePatch): string {
    (match p.operation case Add(_) => ADD_FILE case Update(_) => UPDATE_FILE case Delete => DELETE_FILE) + p.path
  }

  function PrintFile(p: FilePatch): seq<string> {
    [HeaderOf(p)] + PrintBody(p.operation)
  }

  function PrintFiles(ps: seq<FilePatch>): seq<string> {
    if ps == [] then [] else PrintFile(ps[0]) + PrintFiles(ps[1..])
  }

  function PrintPatch(ps: seq<FilePatch>): string {
    Join([BEGIN_PATCH] + PrintFiles(ps) + [END_PATCH], '\n')
  }

  // ------------------------------------------------------------- well-formedness

  ghost predicate OneLine(s: string) {
    Free(s, '\n')
  }

  ghost predicate WellFormedHunk(h: Hunk) {
    && (h.anchor.Some? ==> h.anchor.value != "" && OneLine(h.anchor.value))
    && h.oldLines != []
    && AllFree(h.oldLines, '\n') && AllFree(h.newLines, '\n')
  }

  ghost predicate WellFormedOperation(op: Operation) {
    match op
    case Add(content) => content == "" || content[|content| - 1] == '\n'
    case Update(hunks) => hunks != [] && forall i :: 0 <= i < |hunks| ==> WellFormedHunk(hunks[i])
    case Delete => true
  }

  ghost predicate WellFormedFile(p: FilePatch) {
    ValidPath(p.path) && WellFormedOperation(p.operation)
  }

  ghost predicate DistinctPaths(ps: seq<FilePatch>) {
    forall i, j :: 0 <= i < j < |ps| ==> ps[i].path != ps[j].path
  }

  /** What a patch list must be for the language to express it. */
  ghost predicate WellFormed(ps: seq<FilePatch>) {
    && ps != []
    && DistinctPaths(ps)
    && forall i :: 0 <= i < |ps| ==> WellFormedFile(ps[i])
  }
}
