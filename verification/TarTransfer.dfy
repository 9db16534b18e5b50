/** The archive writer and extractor as they run, and the round trip of whole trees. */
module TarTransfer {
  import opened Basics
  import opened ByteStreams
  import opened Splitting
  import opened TarHeader
  import opened TarArchive
  import opened TarTree
  import opened Utf8

  const CHUNK := 32 * 1024

  // ------------------------------------------------------------ the whole round trip

  predicate Plain(path: seq<Byte>) {
    path != [] && path[0] != SLASH && NUL !in path && ValidUtf8(path)
  }

  ghost predicate AllPlain(items: seq<Item>) {
    forall i :: 0 <= i < |items| ==> Plain(items[i].path)
  }

  lemma {:induction false} JoinedIsPlain(path: FsPath)
    requires ValidPath(path)
    ensures Plain(PrefixOf(path))
  {
    JoinStart(path);
    JoinHasNoNul(path);
    JoinIsValid(path, SLASH);
  }

  lemma {:induction false} JoinHasNoNul(path: FsPath)
    requires forall i :: 0 <= i < |path| ==> ValidName(path[i])
    ensures NUL !in Join(path, SLASH)
  {
    if |path| > 1 {
      JoinHasNoNul(path[1..]);
      assert ValidName(path[0]);
    } else if |path| == 1 {
      assert ValidName(path[0]);
    }
  }

  lemma PlainConcat(a: seq<Item>, b: seq<Item>)
    requires AllPlain(a) && AllPlain(b)
    ensures AllPlain(a + b)
  {
  }

  lemma {:induction false} NodeItemsPlain(path: FsPath, node: Tree)
    requires ValidPath(path) && ValidTree(node)
    ensures AllPlain(ItemsOf(PrefixOf(path), node))
    decreases node
  {
    JoinedIsPlain(path);
    if node.Dir? {
      ItemsPlain(path, node.entries);
      PlainConcat([DirItem(PrefixOf(path), node.meta)], Items(PrefixOf(path), node.entries));
    }
  }

  lemma {:induction false} ItemsPlain(at: FsPath, entries: seq<DirEntry>)
    requires (at == [] || ValidPath(at)) && ValidEntries(entries)
    ensures AllPlain(Items(PrefixOf(at), entries))
    decreases entries
  {
    if entries != [] {
      var e := entries[0];
      PathOfChild(at, e.name);
      NodeItemsPlain(at + [e.name], e.node);
      ItemsPlain(at, entries[1..]);
      PlainConcat(ItemsOf(Under(PrefixOf(at), Lossy(e.name)), e.node), Items(PrefixOf(at), entries[1..]));
    }
  }

  lemma {:induction false} EncodableMeansSupported(items: seq<Item>)
    requires EncodeAll(items).Some?
    ensures NoSpecials(items)
  {
    if items != [] {
      EncodableMeansSupported(items[1..]);
      forall i | 0 <= i < |items| ensures !items[i].Unsupported? {
        if i > 0 {
          assert items[i] == items[1..][i - 1];
        }
      }
    }
  }

  /** The file system holds exactly the tree: the same paths with the same contents, and nothing else. */
  ghost predicate SameTree(fs: Fs, entries: seq<DirEntry>) {
    && [] !in fs
    && forall path: FsPath | path != [] ::
         && (path in fs <==> Find(entries, path).Some?)
         && (path in fs ==> fs[path] == Find(entries, path).value)
  }

  lemma ItemsAreStorable(entries: seq<DirEntry>)
    requires ValidEntries(entries) && SizesFit(Items([], entries)) && NoSpecials(Items([], entries))
    ensures forall i :: 0 <= i < |Items([], entries)| ==> Storable(Items([], entries)[i])
  {
    var items := Items([], entries);
    assert PrefixOf([]) == [];
    ItemsPlain([], entries);
    forall i | 0 <= i < |items| ensures Storable(items[i]) {
      assert Plain(items[i].path);
    }
  }

  /** Applying a tree's items to an empty directory builds the tree. */
  lemma TreeIsApplied(entries: seq<DirEntry>) returns (fs: Fs)
    requires ValidEntries(entries) && NoSpecials(Items([], entries))
    ensures ApplyItems(Items([], entries), map[], NO_COUNTS) == Done(fs, CountAll(NO_COUNTS, Items([], entries)))
    ensures SameTree(fs, entries)
  {
    assert PrefixOf([]) == [];
    fs := GrowEntries(map[], NO_COUNTS, [], entries);
    forall path: FsPath
      ensures path in fs <==> FinderOf(entries)(path).Some?
      ensures path in fs ==> fs[path] == FinderOf(entries)(path).value
    {
      assert GrownAt(map[], fs, [], FinderOf(entries), path);
      assert path[0..] == path;
    }
  }

  /**
   For every directory with UTF-8 names that the writer accepts and whose files fit their size fields:
   extracting the written archive into an empty directory yields exactly the
   tree's paths with the same contents, and the same counts the writer reported.
   */
  lemma TreeRoundTrip(entries: seq<DirEntry>, after: seq<Byte>) returns (fs: Fs)
    requires ValidEntries(entries) && SizesFit(Items([], entries))
    requires EncodeAll(Items([], entries)).Some?
    ensures
      var items := Items([], entries);
      Extract(EncodeAll(items).value + (Trailer() + after), map[], NO_COUNTS) == Done(fs, CountAll(NO_COUNTS, items))
    ensures SameTree(fs, entries)
  {
    EncodableMeansSupported(Items([], entries));
    ItemsAreStorable(entries);
    ArchiveRoundTrip(Items([], entries), after, map[], NO_COUNTS);
    fs := TreeIsApplied(entries);
  }

  /** The archive the writer makes of a directory, and anything behind it. */
  function ArchiveOf(entries: seq<DirEntry>, after: seq<Byte>): seq<Byte>
    requires EncodeAll(Items([], entries)).Some?
  {
    EncodeAll(Items([], entries)).value + (Trailer() + after)
  }

  lemma BadNameDoesNotArrive(entries: seq<DirEntry>, after: seq<Byte>)
    requires RealEntries(entries) && EncodeAll(Items([], entries)).Some? && !AllUtf8(entries)
    ensures !SameTree(Extract(ArchiveOf(entries, after), map[], NO_COUNTS).fs, entries)
  {
    var fs := Extract(ArchiveOf(entries, after), map[], NO_COUNTS).fs;
    EncodableMeansSupported(Items([], entries));
    ItemsShowSpecials([], entries);
    var path := BadNameIsFound(entries);
    ExtractStaysInside(ArchiveOf(entries, after), map[], NO_COUNTS);
    assert !SafePath(path) by {
      var i :| 0 <= i < |path| && !ValidUtf8(path[i]);
      assert !SafeName(path[i]);
    }
    assert SameAt(map[], fs, path);
  }

  /**
   For every directory the writer accepts whose files fit their size fields: the extracted archive is the same
   tree if and only if all its names are UTF-8, and then the counts agree as well.
   */
  lemma TreeRoundTripsExactly(entries: seq<DirEntry>, after: seq<Byte>)
    requires RealEntries(entries) && SizesFit(Items([], entries)) && EncodeAll(Items([], entries)).Some?
    ensures
      var r := Extract(ArchiveOf(entries, after), map[], NO_COUNTS);
      && (r.Done? && SameTree(r.fs, entries) <==> AllUtf8(entries))
      && (AllUtf8(entries) ==> r.Done? && r.counts == CountAll(NO_COUNTS, Items([], entries)))
  {
    if AllUtf8(entries) {
      RealUtf8IsValid(entries);
      var fs := TreeRoundTrip(entries, after);
    } else {
      BadNameDoesNotArrive(entries, after);
    }
  }

  // -------------------------------------------------------------- copying in pieces

  /** Moves exactly `n` bytes; false when the source ends too early. */
  method CopyExact(source: Transport, sink: Transport, n: nat) returns (ok: bool)
    requires source != sink
    modifies source`unread, sink`wire
    ensures ok <==> n <= |old(source.unread)|
    ensures ok ==> sink.wire == old(sink.wire) + old(source.unread)[..n] && source.unread == old(source.unread)[n..]
  {
    var remaining: nat := n;
    while remaining > 0
      invariant remaining <= n && n - remaining <= |old(source.unread)|
      invariant source.unread == old(source.unread)[n - remaining..]
      invariant sink.wire == old(sink.wire) + old(source.unread)[..n - remaining]
    {
      var chunk := source.Read(Min(remaining, CHUNK));
      if chunk == [] {
        return false;
      }
      sink.WriteAll(chunk);
      ghost var done := n - remaining;
      Advance(old(source.unread), done, chunk, source.unread);
      assert old(sink.wire) + old(source.unread)[..done] + chunk == old(sink.wire) + (old(source.unread)[..done] + chunk);
      remaining := remaining - |chunk|;
    }
    ok := true;
  }

  lemma Advance(all: seq<Byte>, done: nat, chunk: seq<Byte>, rest: seq<Byte>)
    requires done <= |all| && all[done..] == chunk + rest
    ensures done + |chunk| <= |all| && all[..done] + chunk == all[..done + |chunk|] && rest == all[done + |chunk|..]
  {
    assert all == all[..done] + chunk + rest;
  }

  /** Reads exactly `n` bytes, or reports that the stream is too short. */
  method ReadExact(source: Transport, n: nat) returns (bytes: Option<seq<Byte>>)
    modifies source`unread
    ensures n <= |old(source.unread)| ==>
              bytes == Some(old(source.unread)[..n]) && source.unread == old(source.unread)[n..]
    ensures n > |old(source.unread)| ==> bytes.None?
  {
    var got: seq<Byte> := [];
    while |got| < n
      invariant |got| <= n && |got| <= |old(source.unread)|
      invariant got == old(source.unread)[..|got|] && source.unread == old(source.unread)[|got|..]
    {
      var chunk := source.Read(Min(n - |got|, CHUNK));
      if chunk == [] {
        return None;
      }
      Advance(old(source.unread), |got|, chunk, source.unread);
      got := got + chunk;
    }
    return Some(got);
  }

  // ----------------------------------------------------------------- the writer

  datatype Frame = Frame(entries: seq<DirEntry>, prefix: seq<Byte>, idx: nat)

  ghost predicate FramesOk(stack: seq<Frame>) {
    forall i :: 0 <= i < |stack| ==> stack[i].idx <= |stack[i].entries|
  }

  /** What is still to be written: the rest of the top frame, then of the frames below it. */
  function Remaining(stack: seq<Frame>): seq<Item>
    requires forall i :: 0 <= i < |stack| ==> stack[i].idx <= |stack[i].entries|
    decreases |stack|
  {
    if stack == [] then []
    else
      var top := stack[|stack| - 1];
      Items(top.prefix, top.entries[top.idx..]) + Remaining(stack[..|stack| - 1])
  }

  lemma {:induction false} EncodeConcat(a: seq<Item>, b: seq<Item>)
    ensures EncodeAll(a + b) ==
              if EncodeAll(a).None? || EncodeAll(b).None? then None
              else Some(EncodeAll(a).value + EncodeAll(b).value)
  {
    if a == [] {
      assert a + b == b;
      if EncodeAll(b).Some? {
        assert [] + EncodeAll(b).value == EncodeAll(b).value;
      }
    } else {
      assert (a + b)[0] == a[0] && (a + b)[1..] == a[1..] + b;
      EncodeConcat(a[1..], b);
      if EncodeItem(a[0]).Some? && EncodeAll(a[1..]).Some? && EncodeAll(b).Some? {
        var x, y, z := EncodeItem(a[0]).value, EncodeAll(a[1..]).value, EncodeAll(b).value;
        assert x + (y + z) == x + y + z;
      }
    }
  }

  /** Writes the header, content and padding of one item. */
  method WriteItem(item: Item, out: Transport) returns (ok: bool)
    modifies out`wire
    ensures ok <==> EncodeItem(item).Some?
    ensures ok ==> out.wire == old(out.wire) + EncodeItem(item).value
  {
    match item
    case Unsupported(_) => return false;
    case DirItem(path, meta) =>
      var header := WriteHeader(path + [SLASH], 0, meta.mode, meta.mtime, DIR_FLAG);
      if header.None? {
        return false;
      }
      out.WriteAll(header.value);
      return true;
    case FileItem(path, content, meta) =>
      var header := WriteHeader(path, |content|, meta.mode, meta.mtime, FILE_FLAG);
      if header.None? {
        return false;
      }
      out.WriteAll(header.value);
      var file := new Transport(content);
      var copied := CopyExact(file, out, |content|);
      assert content[..|content|] == content;
      out.WriteAll(Zeros(PadLength(|content|)));
      return true;
  }

  lemma EncodeOne(item: Item)
    ensures EncodeAll([item]) == EncodeItem(item)
  {
    assert [item][1..] == [];
    if EncodeItem(item).Some? {
      assert EncodeItem(item).value + [] == EncodeItem(item).value;
    }
  }

  /** An item that cannot be encoded spoils the whole archive. */
  lemma OneSpoilsAll(done: seq<Item>, item: Item, rest: seq<Item>)
    requires EncodeItem(item).None?
    ensures EncodeAll(done + ([item] + rest)).None?
  {
    EncodeOne(item);
    EncodeConcat([item], rest);
    EncodeConcat(done, [item] + rest);
  }

  /** How far the writer has got: what is written, what is left, and the counts so far. */
  ghost predicate Written(items: seq<Item>, done: seq<Item>, left: seq<Item>, bytes: seq<Byte>, counts: Counts) {
    && items == done + left
    && EncodeAll(done) == Some(bytes)
    && counts == CountAll(NO_COUNTS, done)
  }

  lemma WriteOneMore(
    items: seq<Item>, done: seq<Item>, item: Item, left: seq<Item>, bytes: seq<Byte>, counts: Counts)
    requires Written(items, done, [item] + left, bytes, counts) && EncodeItem(item).Some?
    ensures Written(items, done + [item], left, bytes + EncodeItem(item).value, AddItem(counts, item))
  {
    assert done + ([item] + left) == (done + [item]) + left;
    EncodeOne(item);
    EncodeConcat(done, [item]);
    CountConcat(NO_COUNTS, done, [item]);
    CountOne(CountAll(NO_COUNTS, done), item);
  }

  lemma CountOne(c: Counts, item: Item)
    ensures CountAll(c, [item]) == AddItem(c, item)
  {
    assert [item][1..] == [];
  }

  /** The item a frame's next entry gives. */
  function HeadItem(path: seq<Byte>, node: Tree): Item {
    match node
    case File(content, meta) => FileItem(path, content, meta)
    case Dir(_, meta) => DirItem(path, meta)
    case Special => Unsupported(path)
  }

  lemma RemainingOfTop(below: seq<Frame>, top: Frame)
    requires FramesOk(below) && top.idx <= |top.entries|
    ensures FramesOk(below + [top])
    ensures Remaining(below + [top]) == Items(top.prefix, top.entries[top.idx..]) + Remaining(below)
  {
    var stack := below + [top];
    assert stack[..|stack| - 1] == below && stack[|stack| - 1] == top;
  }

  lemma ItemsFrom(prefix: seq<Byte>, entries: seq<DirEntry>, idx: nat)
    requires idx < |entries|
    ensures Items(prefix, entries[idx..]) ==
              ItemsOf(Under(prefix, Lossy(entries[idx].name)), entries[idx].node) + Items(prefix, entries[idx + 1..])
  {
    assert entries[idx..][1..] == entries[idx + 1..];
  }

  /** Taking an entry that is not a directory. */
  lemma TakeLeaf(below: seq<Frame>, top: Frame)
    requires FramesOk(below) && top.idx < |top.entries| && !top.entries[top.idx].node.Dir?
    ensures
      var e, moved := top.entries[top.idx], below + [top.(idx := top.idx + 1)];
      && FramesOk(below + [top]) && FramesOk(moved)
      && Remaining(below + [top]) == [HeadItem(Under(top.prefix, Lossy(e.name)), e.node)] + Remaining(moved)
  {
    var e, moved := top.entries[top.idx], top.(idx := top.idx + 1);
    var path := Under(top.prefix, Lossy(e.name));
    RemainingOfTop(below, top);
    RemainingOfTop(below, moved);
    ItemsFrom(top.prefix, top.entries, top.idx);
    LeafItem(path, e.node);
    Assoc([HeadItem(path, e.node)], Items(top.prefix, moved.entries[moved.idx..]), Remaining(below));
  }

  lemma LeafItem(path: seq<Byte>, node: Tree)
    requires !node.Dir?
    ensures ItemsOf(path, node) == [HeadItem(path, node)]
  {
  }

  /** Taking a directory, which gets a frame of its own. */
  lemma TakeDir(below: seq<Frame>, top: Frame)
    requires FramesOk(below) && top.idx < |top.entries| && top.entries[top.idx].node.Dir?
    ensures
      var e, moved := top.entries[top.idx], below + [top.(idx := top.idx + 1)];
      var path := Under(top.prefix, Lossy(e.name));
      var pushed := moved + [Frame(e.node.entries, path, 0)];
      && FramesOk(below + [top]) && FramesOk(pushed)
      && Remaining(below + [top]) == [HeadItem(path, e.node)] + Remaining(pushed)
  {
    var e, moved := top.entries[top.idx], below + [top.(idx := top.idx + 1)];
    var path := Under(top.prefix, Lossy(e.name));
    RemainingOfTop(below, top);
    RemainingOfTop(below, top.(idx := top.idx + 1));
    RemainingOfTop(moved, Frame(e.node.entries, path, 0));
    ItemsFrom(top.prefix, top.entries, top.idx);
    assert e.node.entries[0..] == e.node.entries;
    Regroup([HeadItem(path, e.node)], Items(path, e.node.entries), Items(top.prefix, top.entries[top.idx + 1..]), Remaining(below));
  }

  lemma Regroup<T>(a: seq<T>, b: seq<T>, c: seq<T>, d: seq<T>)
    ensures ((a + b) + c) + d == a + (b + (c + d))
  {
  }

  lemma PopFrame(below: seq<Frame>, top: Frame)
    requires FramesOk(below) && top.idx == |top.entries|
    ensures FramesOk(below + [top]) && Remaining(below + [top]) == Remaining(below)
  {
    RemainingOfTop(below, top);
    assert top.entries[top.idx..] == [];
    assert [] + Remaining(below) == Remaining(below);
  }

  /** The writer's state: what is written, and a stack that holds what is left. */
  ghost predicate Writing(items: seq<Item>, done: seq<Item>, stack: seq<Frame>, bytes: seq<Byte>, counts: Counts) {
    FramesOk(stack) && Written(items, done, Remaining(stack), bytes, counts)
  }

  /** Writes the next entry of the top frame, or finds that the archive cannot be written. */
  method WriteNext(
    ghost items: seq<Item>, ghost done: seq<Item>, ghost bytes: seq<Byte>, counts: Counts,
    below: seq<Frame>, top: Frame, out: Transport)
    returns (ok: bool, stack: seq<Frame>, total: Counts, ghost item: Item)
    requires Writing(items, done, below + [top], bytes, counts) && FramesOk(below) && top.idx < |top.entries|
    modifies out`wire
    ensures ok <==> EncodeItem(item).Some?
    ensures !ok ==> EncodeAll(items).None?
    ensures ok ==> out.wire == old(out.wire) + EncodeItem(item).value
    ensures ok ==> Writing(items, done + [item], stack, bytes + EncodeItem(item).value, total)
    ensures ok ==> |Remaining(stack)| + 1 == |Remaining(below + [top])| && |stack| <= |below| + 2
  {
    var next;
    next, stack := NextItem(below, top);
    item, total := next, AddItem(counts, next);
    ok := WriteItem(next, out);
    if ok {
      WriteOneMore(items, done, item, Remaining(stack), bytes, counts);
    } else {
      OneSpoilsAll(done, item, Remaining(stack));
    }
  }

  /**
   The writer's loop over its explicit stack. It succeeds exactly when every item
   of the walk can be encoded, and then the output is their codes in walk order.
   */
  method WriteEntries(entries: seq<DirEntry>, out: Transport) returns (result: Option<Counts>)
    modifies out`wire
    ensures result.Some? <==> EncodeAll(Items([], entries)).Some?
    ensures result.Some? ==>
              && out.wire == old(out.wire) + EncodeAll(Items([], entries)).value
              && result.value == CountAll(NO_COUNTS, Items([], entries))
  {
    ghost var items := Items([], entries);
    ghost var done, bytes := [], [];
    var counts := NO_COUNTS;
    var stack := [Frame(entries, [], 0)];
    FirstFrame(entries);
    while stack != []
      invariant Writing(items, done, stack, bytes, counts)
      invariant out.wire == old(out.wire) + bytes
      decreases 2 * |Remaining(stack)| + |stack|
    {
      var below, top := stack[..|stack| - 1], stack[|stack| - 1];
      assert stack == below + [top];
      if top.idx >= |top.entries| {
        PopFrame(below, top);
        stack := below;
      } else {
        var ok;
        ghost var item;
        ok, stack, counts, item := WriteNext(items, done, bytes, counts, below, top, out);
        if !ok {
          return None;
        }
        Assoc(old(out.wire), bytes, EncodeItem(item).value);
        done, bytes := done + [item], bytes + EncodeItem(item).value;
      }
    }
    assert done + [] == done;
    return Some(counts);
  }

  /** The whole archive: the entries and two zero blocks. */
  method WriteDirAsTar(root: Tree, out: Transport) returns (result: Option<Counts>)
    modifies out`wire
    ensures result.Some? <==> root.Dir? && EncodeAll(Items([], root.entries)).Some?
    ensures result.Some? ==>
              && out.wire == old(out.wire) + EncodeAll(Items([], root.entries)).value + Trailer()
              && result.value == CountAll(NO_COUNTS, Items([], root.entries))
  {
    if !root.Dir? {
      return None;
    }
    result := WriteEntries(root.entries, out);
    if result.Some? {
      ghost var written := out.wire;
      out.WriteAll(Zeros(BLOCK));
      out.WriteAll(Zeros(BLOCK));
      assert out.wire == written + Trailer();
    }
  }

  lemma FirstFrame(entries: seq<DirEntry>)
    ensures Written(Items([], entries), [], Remaining([Frame(entries, [], 0)]), [], NO_COUNTS)
  {
    var stack := [Frame(entries, [], 0)];
    assert stack[..0] == [] && entries[0..] == entries;
    assert Remaining(stack) == Items([], entries) + [];
  }

  /** Takes the next entry of the top frame; a directory gets a frame of its own. */
  method NextItem(below: seq<Frame>, top: Frame) returns (item: Item, stack: seq<Frame>)
    requires FramesOk(below) && top.idx < |top.entries|
    ensures FramesOk(below + [top]) && FramesOk(stack) && |stack| <= |below| + 2
    ensures Remaining(below + [top]) == [item] + Remaining(stack)
  {
    var e := top.entries[top.idx];
    var path := Under(top.prefix, Lossy(e.name));
    item := HeadItem(path, e.node);
    stack := below + [top.(idx := top.idx + 1)];
    if e.node.Dir? {
      TakeDir(below, top);
      stack := stack + [Frame(e.node.entries, path, 0)];
    } else {
      TakeLeaf(below, top);
    }
  }

  // --------------------------------------------------------------- the extractor

  /** The extractor's loop: reads block by block, in whatever pieces the stream arrives. */
  method ExtractTarToDir(input: Transport, root: Fs) returns (result: Extraction)
    modifies input`unread
    ensures result == Extract(old(input.unread), root, NO_COUNTS)
  {
    var fs, counts := root, NO_COUNTS;
    while true
      invariant Extract(old(input.unread), root, NO_COUNTS) == Extract(input.unread, fs, counts)
      decreases |input.unread|
    {
      ghost var stream := input.unread;
      var header := ReadExact(input, BLOCK);
      if header.None? {
        return Aborted(fs, Truncated);
      }
      if AllZero(header.value) {
        var second := ReadExact(input, BLOCK);
        return if second.None? then Aborted(fs, Truncated) else Done(fs, counts);
      }
      var parsed := Parse(header.value);
      if parsed.Err? {
        return Aborted(fs, parsed.error);
      }
      var content, complete := ReadBody(input, parsed.value.size);
      BodyOf(stream, parsed.value);
      if !complete {
        return CutShort(fs, parsed.value, content);
      }
      var step := ApplyEntry(fs, counts, parsed.value, content);
      if step.Aborted? {
        return step;
      }
      fs, counts := step.fs, step.counts;
    }
  }

  /** Reads up to `n` bytes: fewer only at the end of the stream. */
  method ReadUpTo(source: Transport, n: nat) returns (bytes: seq<Byte>)
    modifies source`unread
    ensures bytes == old(source.unread)[..Min(n, |old(source.unread)|)]
    ensures source.unread == old(source.unread)[|bytes|..]
  {
    bytes := [];
    while |bytes| < n
      invariant |bytes| <= n && |bytes| <= |old(source.unread)|
      invariant bytes == old(source.unread)[..|bytes|] && source.unread == old(source.unread)[|bytes|..]
    {
      var chunk := source.Read(Min(n - |bytes|, CHUNK));
      if chunk == [] {
        return;
      }
      Advance(old(source.unread), |bytes|, chunk, source.unread);
      bytes := bytes + chunk;
    }
  }

  /** The content of an entry and the padding behind it. */
  method ReadBody(input: Transport, size: nat) returns (content: seq<Byte>, complete: bool)
    modifies input`unread
    ensures content == old(input.unread)[..Min(size, |old(input.unread)|)]
    ensures complete <==> |old(input.unread)| >= size + PadLength(size)
    ensures complete ==> input.unread == old(input.unread)[size + PadLength(size)..]
  {
    content := ReadUpTo(input, size);
    if |content| < size {
      return content, false;
    }
    var pad := ReadExact(input, PadLength(size));
    complete := pad.Some?;
  }

  lemma BodyOf(stream: seq<Byte>, entry: Parsed)
    requires |stream| >= BLOCK && !AllZero(stream[..BLOCK]) && Parse(stream[..BLOCK]) == Ok(entry)
    ensures
      var body, total := stream[BLOCK..], entry.size + PadLength(entry.size);
      Next(stream) == if |body| < total then Entry(entry, body[..Min(entry.size, |body|)], false, [])
                      else Entry(entry, body[..entry.size], true, body[total..])
  {
    var body, total := stream[BLOCK..], entry.size + PadLength(entry.size);
    BodySlices(stream, Min(entry.size, |body|));
    if |body| >= total {
      BodySlices(stream, total);
    }
  }

  lemma BodySlices(stream: seq<Byte>, n: nat)
    requires BLOCK + n <= |stream|
    ensures stream[BLOCK..][..n] == stream[BLOCK..BLOCK + n] && stream[BLOCK..][n..] == stream[BLOCK + n..]
  {
  }

  lemma WireIsArchive(entries: seq<DirEntry>, wire: seq<Byte>)
    requires EncodeAll(Items([], entries)).Some?
    requires wire == [] + EncodeAll(Items([], entries)).value + Trailer()
    ensures wire == ArchiveOf(entries, [])
  {
    var code := EncodeAll(Items([], entries)).value;
    Neutral(code, Trailer());
  }

  lemma Neutral<T>(a: seq<T>, b: seq<T>)
    ensures [] + a + b == a + (b + [])
  {
  }

  /**
   Writing a tree and extracting the archive elsewhere, end to end: the tree arrives as it was if and only if
   all its names are UTF-8, and then both sides report the same counts.
   */
  method TransferTree(root: Tree) returns (sent: Option<Counts>, received: Extraction)
    requires root.Dir? ==> RealEntries(root.entries) && SizesFit(Items([], root.entries))
    ensures sent.Some? <==> root.Dir? && EncodeAll(Items([], root.entries)).Some?
    ensures sent.Some? ==> (received.Done? && SameTree(received.fs, root.entries) <==> AllUtf8(root.entries))
    ensures sent.Some? && AllUtf8(root.entries) ==> received.Done? && received.counts == sent.value
  {
    var pipe := new Transport([]);
    sent := WriteDirAsTar(root, pipe);
    var arrived := new Transport(pipe.wire);
    received := ExtractTarToDir(arrived, map[]);
    if sent.Some? {
      WireIsArchive(root.entries, pipe.wire);
      TreeRoundTripsExactly(root.entries, []);
    }
  }
}
