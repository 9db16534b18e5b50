/** Whole directory trees: the depth-first walk, the extracted file system, and their round trip. */
module TarTree {
  import opened Basics
  import opened Splitting
  import opened TarHeader
  import opened TarArchive
  import opened Utf8

  datatype Tree =
    | File(content: seq<Byte>, meta: Meta)
    | Dir(entries: seq<DirEntry>, meta: Meta)
    | Special   // a symbolic link, socket or device

  datatype DirEntry = DirEntry(name: Name, node: Tree)

  // ------------------------------------------------------------------ the walk

  function Under(prefix: seq<Byte>, name: Name): seq<Byte> {
    if prefix == [] then name else prefix + [SLASH] + name
  }

  /** The items of a directory in the order the walk meets them; names that are not UTF-8 are converted. */
  function Items(prefix: seq<Byte>, entries: seq<DirEntry>): seq<Item>
    decreases entries
  {
    if entries == [] then []
    else
      var e := entries[0];
      ItemsOf(Under(prefix, Lossy(e.name)), e.node) + Items(prefix, entries[1..])
  }

  function ItemsOf(path: seq<Byte>, node: Tree): seq<Item>
    decreases node
  {
    match node
    case File(content, meta) => [FileItem(path, content, meta)]
    case Dir(entries, meta) => [DirItem(path, meta)] + Items(path, entries)
    case Special => [Unsupported(path)]
  }

  function CountAll(c: Counts, items: seq<Item>): Counts
    decreases |items|
  {
    if items == [] then c else CountAll(AddItem(c, items[0]), items[1..])
  }

  // ---------------------------------------------------------------- file systems

  /** What any file name satisfies. */
  predicate ProperName(name: Name) {
    name != [] && name != DOT && name != DOTDOT && SLASH !in name && NUL !in name
  }

  /** A file name that is text. */
  predicate ValidName(name: Name) {
    ProperName(name) && ValidUtf8(name)
  }

  /** What any real directory satisfies: proper, distinct names, all the way down. */
  ghost predicate RealEntries(entries: seq<DirEntry>)
    decreases entries
  {
    && (forall i :: 0 <= i < |entries| ==> ProperName(entries[i].name) && RealTree(entries[i].node))
    && (forall i, j :: 0 <= i < j < |entries| ==> entries[i].name != entries[j].name)
  }

  ghost predicate RealTree(node: Tree)
    decreases node
  {
    node.Dir? ==> RealEntries(node.entries)
  }

  /** Every name in the tree is UTF-8. */
  ghost predicate AllUtf8(entries: seq<DirEntry>)
    decreases entries
  {
    forall i :: 0 <= i < |entries| ==> ValidUtf8(entries[i].name) && TreeUtf8(entries[i].node)
  }

  ghost predicate TreeUtf8(node: Tree)
    decreases node
  {
    node.Dir? ==> AllUtf8(node.entries)
  }

  /** A real directory all of whose names are UTF-8. */
  ghost predicate ValidEntries(entries: seq<DirEntry>)
    decreases entries
  {
    && (forall i :: 0 <= i < |entries| ==> ValidName(entries[i].name) && ValidTree(entries[i].node))
    && (forall i, j :: 0 <= i < j < |entries| ==> entries[i].name != entries[j].name)
  }

  ghost predicate ValidTree(node: Tree)
    decreases node
  {
    node.Dir? ==> ValidEntries(node.entries)
  }

  /** Every file is small enough for its size field. */
  ghost predicate SizesFit(items: seq<Item>) {
    forall i :: 0 <= i < |items| && items[i].FileItem? ==> |items[i].content| < Pow8(11)
  }

  /** What a path leads to, going down from a directory by names. */
  function Find(entries: seq<DirEntry>, path: FsPath): Option<FsNode>
    requires path != []
    decreases entries
  {
    if entries == [] then None
    else if entries[0].name == path[0] then FindIn(entries[0].node, path[1..])
    else Find(entries[1..], path)
  }

  function FindIn(node: Tree, path: FsPath): Option<FsNode>
    decreases node
  {
    match node
    case File(content, _) => if path == [] then Some(FsFile(content)) else None
    case Dir(entries, _) => if path == [] then Some(FsDir) else Find(entries, path)
    case Special => None
  }

  ghost predicate GrownAt(fs: Fs, fs': Fs, at: FsPath, find: FsPath -> Option<FsNode>, r: FsPath) {
    && (r in fs' <==> r in fs || (at <= r && find(r[|at|..]).Some?))
    && (r in fs' ==> fs'[r] == if r in fs then fs[r] else find(r[|at|..]).value)
  }

  /** `fs'` is `fs` plus exactly the nodes that `find` locates below `at`. */
  ghost predicate Grown(fs: Fs, fs': Fs, at: FsPath, find: FsPath -> Option<FsNode>) {
    forall r: FsPath :: GrownAt(fs, fs', at, find, r)
  }

  function FinderOf(entries: seq<DirEntry>): FsPath -> Option<FsNode> {
    path => if path == [] then None else Find(entries, path)
  }

  function NodeFinder(node: Tree): FsPath -> Option<FsNode> {
    path => FindIn(node, path)
  }

  ghost predicate DirsExist(fs: Fs, path: FsPath) {
    forall n :: 0 < n <= |path| ==> path[..n] in fs && fs[path[..n]].FsDir?
  }

  /** Nothing exists at or below `at`. */
  ghost predicate FreshBelow(fs: Fs, at: FsPath) {
    forall r :: r in fs ==> !(at <= r)
  }

  lemma {:induction false} MakeExistingDirs(fs: Fs, path: FsPath)
    requires DirsExist(fs, path)
    ensures MakeDirs(fs, path) == Some(fs)
  {
    if path != [] {
      var above := path[..|path| - 1];
      forall n | 0 < n <= |above| ensures above[..n] in fs && fs[above[..n]].FsDir? {
        assert above[..n] == path[..n];
      }
      MakeExistingDirs(fs, above);
      assert path[..|path|] == path;
    }
  }

  // ------------------------------------------------------------------- paths

  lemma {:induction false} KeepAllNames(names: seq<Name>)
    requires forall i :: 0 <= i < |names| ==> ValidName(names[i])
    ensures KeepNames(names) == names
  {
    if names != [] {
      KeepAllNames(names[1..]);
    }
  }

  const NO_NAME: Name := []

  lemma {:induction false} KeepNamesDropsLast(names: seq<Name>)
    requires forall i :: 0 <= i < |names| ==> ValidName(names[i])
    ensures KeepNames(names + [NO_NAME]) == names
  {
    if names == [] {
      assert (names + [NO_NAME])[1..] == [];
    } else {
      assert (names + [NO_NAME])[1..] == names[1..] + [NO_NAME];
      KeepNamesDropsLast(names[1..]);
    }
  }

  ghost predicate ValidPath(path: FsPath) {
    path != [] && forall i :: 0 <= i < |path| ==> ValidName(path[i])
  }

  lemma JoinStart(path: FsPath)
    requires ValidPath(path)
    ensures
      var bytes := Join(path, SLASH);
      bytes != [] && bytes[0] != SLASH && !(|bytes| >= 2 && bytes[0] == 46 && bytes[1] == SLASH)
  {
    assert ValidName(path[0]);
    var bytes := Join(path, SLASH);
    assert path[0] <= bytes;
    assert bytes[0] == path[0][0];
    if |path[0]| == 1 {
      assert path[0] == [path[0][0]];
    } else {
      assert bytes[1] == path[0][1];
    }
  }

  lemma ValidNamesAreFree(path: FsPath)
    requires forall i :: 0 <= i < |path| ==> ValidName(path[i])
    ensures AllFree(path, SLASH) && DOTDOT !in path
  {
  }

  /** A joined path leads back to its components, with or without a trailing slash. */
  lemma SanitizeJoined(path: FsPath)
    requires ValidPath(path)
    ensures Sanitize(Join(path, SLASH)) == Inside(path)
    ensures Sanitize(Join(path, SLASH) + [SLASH]) == Inside(path)
  {
    ValidNamesAreFree(path);
    JoinStart(path);
    SplitOfJoin(path, SLASH);
    KeepAllNames(path);
    var withSlash := path + [NO_NAME];
    JoinSnoc(path, NO_NAME, SLASH);
    assert Join(path, SLASH) + [SLASH] + NO_NAME == Join(path, SLASH) + [SLASH];
    assert AllFree(withSlash, SLASH);
    SplitOfJoin(withSlash, SLASH);
    KeepNamesDropsLast(path);
    var bytes := Join(path, SLASH) + [SLASH];
    DotSlashNeedsDot(Join(path, SLASH), path);
  }

  lemma DotSlashNeedsDot(bytes: seq<Byte>, path: FsPath)
    requires ValidPath(path) && bytes == Join(path, SLASH)
    ensures !(bytes[0] == 46 && (bytes + [SLASH])[1] == SLASH)
  {
    JoinStart(path);
    if |bytes| == 1 {
      assert path[0] <= bytes;
      assert ValidName(path[0]);
      assert path[0] == bytes;
      assert bytes == [bytes[0]];
    }
  }

  // -------------------------------------------------------- growing a file system

  lemma AddLeaf(fs: Fs, at: FsPath, leaf: FsNode, find: FsPath -> Option<FsNode>)
    requires FreshBelow(fs, at)
    requires find([]) == Some(leaf) && forall p :: p != [] ==> find(p).None?
    ensures at !in fs && Grown(fs, fs[at := leaf], at, find)
  {
    var fs' := fs[at := leaf];
    assert at <= at && at[|at|..] == [];
    forall r: FsPath ensures GrownAt(fs, fs', at, find, r) {
      if at <= r && r != at {
        assert r[|at|..] != [];
      }
    }
  }

  /** A directory and then its contents. */
  lemma AddContents(fs: Fs, at: FsPath, fs2: Fs, node: Tree)
    requires FreshBelow(fs, at) && node.Dir?
    requires Grown(fs[at := FsDir], fs2, at, FinderOf(node.entries))
    ensures Grown(fs, fs2, at, NodeFinder(node))
  {
    assert at[|at|..] == [];
    forall r: FsPath ensures GrownAt(fs, fs2, at, NodeFinder(node), r) {
      assert GrownAt(fs[at := FsDir], fs2, at, FinderOf(node.entries), r);
      if at <= r && r != at {
        assert r[|at|..] != [];
      }
    }
  }

  /** The first entry of a directory and then the others, seen at one path. */
  lemma AddSiblingAt(fs: Fs, fs1: Fs, fs2: Fs, at: FsPath, entries: seq<DirEntry>, r: FsPath)
    requires entries != [] && ValidEntries(entries)
    requires GrownAt(fs, fs1, at + [entries[0].name], NodeFinder(entries[0].node), r)
    requires GrownAt(fs1, fs2, at, FinderOf(entries[1..]), r)
    ensures GrownAt(fs, fs2, at, FinderOf(entries), r)
  {
    var first := at + [entries[0].name];
    if at <= r && r != at {
      var below := r[|at|..];
      assert below != [] && below[0] == r[|at|];
      if below[0] == entries[0].name {
        assert first <= r && r[|first|..] == below[1..];
        NoOtherEntry(entries, below);
      }
    } else {
      assert first <= r ==> at <= r && r != at;
      assert r == at ==> r[|at|..] == [];
    }
  }

  lemma AddSibling(fs: Fs, fs1: Fs, fs2: Fs, at: FsPath, entries: seq<DirEntry>)
    requires entries != [] && ValidEntries(entries)
    requires Grown(fs, fs1, at + [entries[0].name], NodeFinder(entries[0].node))
    requires Grown(fs1, fs2, at, FinderOf(entries[1..]))
    ensures Grown(fs, fs2, at, FinderOf(entries))
  {
    forall r: FsPath ensures GrownAt(fs, fs2, at, FinderOf(entries), r) {
      assert GrownAt(fs, fs1, at + [entries[0].name], NodeFinder(entries[0].node), r);
      assert GrownAt(fs1, fs2, at, FinderOf(entries[1..]), r);
      AddSiblingAt(fs, fs1, fs2, at, entries, r);
    }
  }

  lemma NoOtherEntry(entries: seq<DirEntry>, path: FsPath)
    requires entries != [] && ValidEntries(entries) && path != [] && path[0] == entries[0].name
    ensures Find(entries[1..], path).None?
  {
    NameMissing(entries[1..], path);
  }

  lemma {:induction false} NameMissing(entries: seq<DirEntry>, path: FsPath)
    requires path != [] && forall i :: 0 <= i < |entries| ==> entries[i].name != path[0]
    ensures Find(entries, path).None?
  {
    if entries != [] {
      NameMissing(entries[1..], path);
    }
  }

  lemma {:induction false} ApplyConcat(a: seq<Item>, b: seq<Item>, fs: Fs, c: Counts)
    ensures
      var first := ApplyItems(a, fs, c);
      ApplyItems(a + b, fs, c) == if first.Aborted? then first else ApplyItems(b, first.fs, first.counts)
  {
    if a == [] {
      assert a + b == b;
    } else {
      assert (a + b)[0] == a[0] && (a + b)[1..] == a[1..] + b;
      var step := ApplyItem(a[0], fs, c);
      if step.Done? {
        ApplyConcat(a[1..], b, step.fs, step.counts);
      }
    }
  }

  lemma {:induction false} CountConcat(c: Counts, a: seq<Item>, b: seq<Item>)
    ensures CountAll(c, a + b) == CountAll(CountAll(c, a), b)
    decreases |a|
  {
    if a == [] {
      assert a + b == b;
    } else {
      assert (a + b)[0] == a[0] && (a + b)[1..] == a[1..] + b;
      CountConcat(AddItem(c, a[0]), a[1..], b);
    }
  }

  function PrefixOf(at: FsPath): seq<Byte> {
    Join(at, SLASH)
  }

  ghost predicate NoSpecials(items: seq<Item>) {
    forall i :: 0 <= i < |items| ==> !items[i].Unsupported?
  }

  lemma PathOfChild(at: FsPath, name: Name)
    requires (at == [] || ValidPath(at)) && ValidName(name)
    ensures ValidPath(at + [name]) && Under(PrefixOf(at), Lossy(name)) == PrefixOf(at + [name])
  {
    LossyKeepsValid(name);
    if at == [] {
      assert at + [name] == [name];
    } else {
      JoinStart(at);
      JoinSnoc(at, name, SLASH);
    }
  }

  lemma SpecialsOfConcat(a: seq<Item>, b: seq<Item>)
    requires NoSpecials(a + b)
    ensures NoSpecials(a) && NoSpecials(b)
  {
    assert forall i :: 0 <= i < |a| ==> (a + b)[i] == a[i];
    assert forall i :: 0 <= i < |b| ==> (a + b)[|a| + i] == b[i];
  }

  lemma SpecialIsUnsupported(path: seq<Byte>)
    ensures !NoSpecials(ItemsOf(path, Special))
  {
    assert ItemsOf(path, Special)[0].Unsupported?;
  }

  /** Applying a node's items adds exactly that node's tree at its path. */
  lemma {:induction false} GrowNode(fs: Fs, c: Counts, path: FsPath, node: Tree) returns (fs': Fs)
    requires ValidPath(path) && ValidTree(node) && NoSpecials(ItemsOf(PrefixOf(path), node))
    requires DirsExist(fs, path[..|path| - 1]) && FreshBelow(fs, path)
    ensures ApplyItems(ItemsOf(PrefixOf(path), node), fs, c)
         == Done(fs', CountAll(c, ItemsOf(PrefixOf(path), node)))
    ensures Grown(fs, fs', path, NodeFinder(node))
    decreases node
  {
    var items := ItemsOf(PrefixOf(path), node);
    SanitizeJoined(path);
    SpecialIsUnsupported(PrefixOf(path));
    MakeExistingDirs(fs, path[..|path| - 1]);
    match node
    case File(content, meta) =>
      AddLeaf(fs, path, FsFile(content), NodeFinder(node));
      fs' := fs[path := FsFile(content)];
      OneItem(items[0], fs, c);
      assert items == [items[0]];
    case Dir(entries, meta) =>
      assert path !in fs by {
        assert path <= path;
      }
      var fs1, c1 := fs[path := FsDir], AddItem(c, items[0]);
      var head, body := [DirItem(PrefixOf(path), meta)], Items(PrefixOf(path), entries);
      assert items == head + body;
      SpecialsOfConcat(head, body);
      OneItem(items[0], fs, c);
      DirReady(fs, path, entries);
      fs' := GrowEntries(fs1, c1, path, entries);
      ApplyConcat(head, body, fs, c);
      CountConcat(c, head, body);
      AddContents(fs, path, fs', node);
    case Special =>
      assert false;
  }

  lemma OneItem(item: Item, fs: Fs, c: Counts)
    ensures ApplyItems([item], fs, c) == ApplyItem(item, fs, c)
    ensures CountAll(c, [item]) == AddItem(c, item)
  {
  }

  /** A fresh directory is ready to receive its entries. */
  lemma DirReady(fs: Fs, path: FsPath, entries: seq<DirEntry>)
    requires ValidPath(path) && DirsExist(fs, path[..|path| - 1]) && FreshBelow(fs, path)
    ensures DirsExist(fs[path := FsDir], path)
    ensures forall i :: 0 <= i < |entries| ==> FreshBelow(fs[path := FsDir], path + [entries[i].name])
  {
    var above := path[..|path| - 1];
    var fs1 := fs[path := FsDir];
    forall n | 0 < n <= |path| ensures path[..n] in fs1 && fs1[path[..n]].FsDir? {
      if n < |path| {
        assert above[..n] == path[..n];
      } else {
        assert path[..n] == path;
      }
    }
    forall i, r | 0 <= i < |entries| && r in fs1 ensures !(path + [entries[i].name] <= r) {
      assert path + [entries[i].name] <= r ==> path <= r && r != path;
    }
  }

  /** After one entry has been added, the remaining ones still find an existing, fresh place. */
  lemma SiblingsReady(fs: Fs, fs1: Fs, at: FsPath, entries: seq<DirEntry>)
    requires entries != [] && ValidEntries(entries) && DirsExist(fs, at)
    requires forall i :: 0 <= i < |entries| ==> FreshBelow(fs, at + [entries[i].name])
    requires Grown(fs, fs1, at + [entries[0].name], NodeFinder(entries[0].node))
    ensures DirsExist(fs1, at) && ValidEntries(entries[1..])
    ensures forall i :: 0 <= i < |entries[1..]| ==> FreshBelow(fs1, at + [entries[1..][i].name])
  {
    var first := at + [entries[0].name];
    forall n | 0 < n <= |at| ensures at[..n] in fs1 && fs1[at[..n]].FsDir? {
      assert GrownAt(fs, fs1, first, NodeFinder(entries[0].node), at[..n]);
    }
    forall i, r | 0 <= i < |entries[1..]| && r in fs1 ensures !(at + [entries[1..][i].name] <= r) {
      assert FreshBelow(fs, at + [entries[i + 1].name]);
      assert GrownAt(fs, fs1, first, NodeFinder(entries[0].node), r);
      assert first <= r ==> r[|at|] == entries[0].name;
    }
  }

  lemma {:induction false} GrowEntries(fs: Fs, c: Counts, at: FsPath, entries: seq<DirEntry>) returns (fs': Fs)
    requires (at == [] || ValidPath(at)) && ValidEntries(entries) && NoSpecials(Items(PrefixOf(at), entries))
    requires DirsExist(fs, at)
    requires forall i :: 0 <= i < |entries| ==> FreshBelow(fs, at + [entries[i].name])
    ensures ApplyItems(Items(PrefixOf(at), entries), fs, c)
         == Done(fs', CountAll(c, Items(PrefixOf(at), entries)))
    ensures Grown(fs, fs', at, FinderOf(entries))
    decreases entries
  {
    if entries == [] {
      fs' := fs;
    } else {
      var e, path := entries[0], at + [entries[0].name];
      PathOfChild(at, e.name);
      var head, tail := ItemsOf(PrefixOf(path), e.node), Items(PrefixOf(at), entries[1..]);
      assert Items(PrefixOf(at), entries) == head + tail;
      SpecialsOfConcat(head, tail);
      assert path[..|path| - 1] == at;
      var fs1 := GrowNode(fs, c, path, e.node);
      SiblingsReady(fs, fs1, at, entries);
      fs' := GrowEntries(fs1, CountAll(c, head), at, entries[1..]);
      ApplyConcat(head, tail, fs, c);
      CountConcat(c, head, tail);
      AddSibling(fs, fs1, fs', at, entries);
    }
  }

  // ------------------------------------------------------------- names that are not text

  lemma {:induction false} RealUtf8IsValid(entries: seq<DirEntry>)
    requires RealEntries(entries) && AllUtf8(entries)
    ensures ValidEntries(entries)
    decreases entries
  {
    forall i | 0 <= i < |entries| ensures ValidTree(entries[i].node) {
      if entries[i].node.Dir? {
        RealUtf8IsValid(entries[i].node.entries);
      }
    }
  }

  ghost predicate NoSpecialNodes(entries: seq<DirEntry>)
    decreases entries
  {
    forall i :: 0 <= i < |entries| ==>
      !entries[i].node.Special? && (entries[i].node.Dir? ==> NoSpecialNodes(entries[i].node.entries))
  }

  lemma {:induction false} ItemsShowSpecials(prefix: seq<Byte>, entries: seq<DirEntry>)
    requires NoSpecials(Items(prefix, entries))
    ensures NoSpecialNodes(entries)
    decreases entries
  {
    if entries != [] {
      var e, rest := entries[0], entries[1..];
      var path := Under(prefix, Lossy(e.name));
      SpecialsOfConcat(ItemsOf(path, e.node), Items(prefix, rest));
      SpecialIsUnsupported(path);
      ItemsShowSpecials(prefix, rest);
      if e.node.Dir? {
        assert ItemsOf(path, e.node) == [DirItem(path, e.node.meta)] + Items(path, e.node.entries);
        SpecialsOfConcat([DirItem(path, e.node.meta)], Items(path, e.node.entries));
        ItemsShowSpecials(path, e.node.entries);
      }
      forall i | 0 <= i < |entries|
        ensures !entries[i].node.Special? && (entries[i].node.Dir? ==> NoSpecialNodes(entries[i].node.entries))
      {
        if i > 0 {
          assert entries[i] == rest[i - 1];
        }
      }
    }
  }

  /** Looking a name up finds the entry that has it. */
  lemma {:induction false} FindByName(entries: seq<DirEntry>, i: nat, path: FsPath)
    requires i < |entries| && path != [] && path[0] == entries[i].name
    requires forall j, k :: 0 <= j < k < |entries| ==> entries[j].name != entries[k].name
    ensures Find(entries, path) == FindIn(entries[i].node, path[1..])
    decreases entries
  {
    if i > 0 {
      assert entries[0].name != entries[i].name;
      FindByName(entries[1..], i - 1, path);
    }
  }

  ghost predicate HasBadName(path: FsPath) {
    exists i :: 0 <= i < |path| && !ValidUtf8(path[i])
  }

  /** A tree with a name that is not UTF-8 holds something at a path with such a name. */
  lemma {:induction false} BadNameIsFound(entries: seq<DirEntry>) returns (path: FsPath)
    requires RealEntries(entries) && NoSpecialNodes(entries) && !AllUtf8(entries)
    ensures path != [] && Find(entries, path).Some? && HasBadName(path)
    decreases entries
  {
    var i :| 0 <= i < |entries| && !(ValidUtf8(entries[i].name) && TreeUtf8(entries[i].node));
    var e := entries[i];
    if !ValidUtf8(e.name) {
      path := [e.name];
      assert !ValidUtf8(path[0]);
    } else {
      var below := BadNameIsFound(e.node.entries);
      path := [e.name] + below;
      var j :| 0 <= j < |below| && !ValidUtf8(below[j]);
      assert path[j + 1] == below[j];
      assert path[1..] == below;
    }
    FindByName(entries, i, path);
  }
}
