/**
 Lexical normal forms of remote paths and the set of busy transfer destinations
 (src/transfer/mod.rs).
 */
module RemotePaths {
  import opened Basics
  import opened Splitting

  // ------------------------------------------------------------------ the program

  predicate IsAbsolute(path: string) {
    path != "" && path[0] == '/'
  }

  /** What one component does to the stack of parts. */
  function Step(parts: seq<string>, part: string, absolute: bool): seq<string> {
    if part == "" || part == "." then parts
    else if part == ".." then
      if parts != [] && parts[|parts| - 1] != ".." then parts[..|parts| - 1]
      else if !absolute then parts + [part]
      else parts
    else parts + [part]
  }

  function Fold(parts: seq<string>, todo: seq<string>, absolute: bool): seq<string>
    decreases |todo|
  {
    if todo == [] then parts else Fold(Step(parts, todo[0], absolute), todo[1..], absolute)
  }

  function Render(parts: seq<string>, absolute: bool): string {
    var joined := Join(parts, '/');
    if absolute then "/" + joined else if joined == "" then "." else joined
  }

  function Normalize(path: string): string {
    Render(Fold([], Split(path, '/'), IsAbsolute(path)), IsAbsolute(path))
  }

  method NormalizeRemotePath(path: string) returns (normal: string)
    ensures normal == Normalize(path)
  {
    var absolute := IsAbsolute(path);
    var todo := Split(path, '/');
    var parts: seq<string> := [];
    var i := 0;
    while i < |todo|
      invariant 0 <= i <= |todo|
      invariant Fold(parts, todo[i..], absolute) == Fold([], todo, absolute)
    {
      var part := todo[i];
      assert todo[i..][0] == part && todo[i..][1..] == todo[i + 1..];
      if part == "" || part == "." {
      } else if part == ".." && parts != [] && parts[|parts| - 1] != ".." {
        parts := parts[..|parts| - 1];
      } else if part == ".." && !absolute {
        parts := parts + [part];
      } else if part == ".." {
      } else {
        parts := parts + [part];
      }
      i := i + 1;
    }
    var joined := Join(parts, '/');
    normal := if absolute then "/" + joined else if joined == "" then "." else joined;
  }

  // ------------------------------------------------------- what a path stands for

  ghost predicate IsName(s: string) {
    s != "" && s != "." && s != ".." && Free(s, '/')
  }

  /** A directory, as the names on the way from the root. */
  ghost predicate IsPlace(place: seq<string>) {
    forall i :: 0 <= i < |place| ==> IsName(place[i])
  }

  function Enter(place: seq<string>, part: string): seq<string> {
    if part == "" || part == "." then place
    else if part == ".." then (if place == [] then [] else place[..|place| - 1])
    else place + [part]
  }

  function Walk(place: seq<string>, todo: seq<string>): seq<string>
    decreases |todo|
  {
    if todo == [] then place else Walk(Enter(place, todo[0]), todo[1..])
  }

  /** The place a path names, walking its components from a working directory. */
  function Resolve(cwd: seq<string>, path: string): seq<string> {
    Walk(if IsAbsolute(path) then [] else cwd, Split(path, '/'))
  }

  // ---------------------------------------------------------------- normal forms

  /** Steps up, then names down. */
  datatype Form = Form(ups: nat, names: seq<string>)

  function Parts(f: Form): seq<string> {
    seq(f.ups, _ => "..") + f.names
  }

  ghost predicate Proper(f: Form, absolute: bool, longest: nat) {
    && (absolute ==> f.ups == 0)
    && forall i :: 0 <= i < |f.names| ==> IsName(f.names[i]) && |f.names[i]| <= longest
  }

  function StepForm(f: Form, part: string, absolute: bool): Form {
    if part == "" || part == "." then f
    else if part == ".." then
      if f.names != [] then f.(names := f.names[..|f.names| - 1])
      else if absolute then f
      else f.(ups := f.ups + 1)
    else f.(names := f.names + [part])
  }

  function FoldForm(f: Form, todo: seq<string>, absolute: bool): Form
    decreases |todo|
  {
    if todo == [] then f else FoldForm(StepForm(f, todo[0], absolute), todo[1..], absolute)
  }

  function FormOf(path: string): Form {
    FoldForm(Form(0, []), Split(path, '/'), IsAbsolute(path))
  }

  ghost predicate Usable(todo: seq<string>, longest: nat) {
    forall i :: 0 <= i < |todo| ==> Free(todo[i], '/') && |todo[i]| <= longest
  }

  lemma StepMatches(f: Form, part: string, absolute: bool, longest: nat)
    requires Proper(f, absolute, longest)
    requires Free(part, '/') && |part| <= longest
    ensures Proper(StepForm(f, part, absolute), absolute, longest)
    ensures Step(Parts(f), part, absolute) == Parts(StepForm(f, part, absolute))
  {
    var parts := Parts(f);
    if part == ".." && f.names != [] {
      assert parts[|parts| - 1] == f.names[|f.names| - 1];
      assert IsName(f.names[|f.names| - 1]);
    } else if part == ".." && f.ups > 0 {
      assert parts[|parts| - 1] == "..";
    }
  }

  lemma {:induction false} FoldMatches(f: Form, todo: seq<string>, absolute: bool, longest: nat)
    requires Proper(f, absolute, longest) && Usable(todo, longest)
    ensures Proper(FoldForm(f, todo, absolute), absolute, longest)
    ensures Fold(Parts(f), todo, absolute) == Parts(FoldForm(f, todo, absolute))
    decreases |todo|
  {
    if todo != [] {
      StepMatches(f, todo[0], absolute, longest);
      FoldMatches(StepForm(f, todo[0], absolute), todo[1..], absolute, longest);
    }
  }

  lemma {:induction false} SplitIsUsable(s: string)
    ensures Usable(Split(s, '/'), |s|)
  {
    SplitIsFree(s, '/');
    PartsAreShort(s);
  }

  lemma {:induction false} PartsAreShort(s: string)
    ensures forall i :: 0 <= i < |Split(s, '/')| ==> |Split(s, '/')[i]| <= |s|
  {
    if s != "" {
      PartsAreShort(s[1..]);
    }
  }

  /** The stack the program builds is the form of the path. */
  lemma NormalizeByForm(path: string)
    ensures Proper(FormOf(path), IsAbsolute(path), |path|)
    ensures Normalize(path) == Render(Parts(FormOf(path)), IsAbsolute(path))
  {
    SplitIsUsable(path);
    assert Parts(Form(0, [])) == [];
    FoldMatches(Form(0, []), Split(path, '/'), IsAbsolute(path), |path|);
  }

  // -------------------------------------------------- the form decides the place

  /** Where a form leads from a directory: up as far as the root allows, then down. */
  function At(cwd: seq<string>, f: Form): seq<string> {
    cwd[..if f.ups <= |cwd| then |cwd| - f.ups else 0] + f.names
  }

  lemma StepMoves(cwd: seq<string>, f: Form, part: string, absolute: bool)
    requires absolute ==> cwd == []
    ensures At(cwd, StepForm(f, part, absolute)) == Enter(At(cwd, f), part)
  {
    if part == ".." && f.names != [] {
      var place := At(cwd, f);
      assert place[..|place| - 1] == cwd[..if f.ups <= |cwd| then |cwd| - f.ups else 0] + f.names[..|f.names| - 1];
    }
  }

  lemma {:induction false} FoldMoves(cwd: seq<string>, f: Form, todo: seq<string>, absolute: bool)
    requires absolute ==> cwd == []
    ensures At(cwd, FoldForm(f, todo, absolute)) == Walk(At(cwd, f), todo)
    decreases |todo|
  {
    if todo != [] {
      StepMoves(cwd, f, todo[0], absolute);
      FoldMoves(cwd, StepForm(f, todo[0], absolute), todo[1..], absolute);
    }
  }

  lemma FormLeadsThere(cwd: seq<string>, path: string)
    ensures Resolve(cwd, path) == At(if IsAbsolute(path) then [] else cwd, FormOf(path))
  {
    var start := if IsAbsolute(path) then [] else cwd;
    assert At(start, Form(0, [])) == start;
    FoldMoves(start, Form(0, []), Split(path, '/'), IsAbsolute(path));
  }

  // ------------------------------------------------- a normal form reads as itself

  lemma {:induction false} NamesFold(f: Form, names: seq<string>, absolute: bool, longest: nat)
    requires Proper(Form(f.ups, names), absolute, longest)
    ensures FoldForm(f, names, absolute) == f.(names := f.names + names)
    decreases |names|
  {
    if names == [] {
      assert f.names + names == f.names;
    } else {
      assert IsName(names[0]);
      forall i | 0 <= i < |names[1..]| ensures IsName(names[1..][i]) && |names[1..][i]| <= longest {
        assert IsName(names[i + 1]);
      }
      NamesFold(f.(names := f.names + [names[0]]), names[1..], absolute, longest);
      assert f.names + [names[0]] + names[1..] == f.names + names;
    }
  }

  lemma {:induction false} PartsFold(f: Form, ups: nat, absolute: bool, longest: nat)
    requires ups <= f.ups && Proper(f, absolute, longest)
    ensures FoldForm(Form(f.ups - ups, []), seq(ups, _ => "..") + f.names, absolute) == f
    decreases ups
  {
    var todo := seq(ups, _ => "..") + f.names;
    if ups == 0 {
      assert todo == f.names;
      NamesFold(Form(f.ups, []), f.names, absolute, longest);
      assert [] + f.names == f.names;
    } else {
      assert todo[0] == ".." && todo[1..] == seq(ups - 1, _ => "..") + f.names;
      PartsFold(f, ups - 1, absolute, longest);
    }
  }

  lemma PartsAreFree(f: Form, absolute: bool, longest: nat)
    requires Proper(f, absolute, longest)
    ensures AllFree(Parts(f), '/')
    ensures forall i :: 0 <= i < |Parts(f)| ==> Parts(f)[i] != ""
  {
    var parts := Parts(f);
    forall i | 0 <= i < |parts| ensures Free(parts[i], '/') && parts[i] != "" {
      if i >= f.ups {
        assert parts[i] == f.names[i - f.ups];
      } else {
        assert parts[i] == "..";
      }
    }
  }

  lemma JoinStart(parts: seq<string>)
    requires parts != [] && AllFree(parts, '/') && parts[0] != ""
    ensures Join(parts, '/') != "" && Join(parts, '/')[0] != '/'
  {
    assert Free(parts[0], '/');
    assert parts[0][0] in parts[0];
    if |parts| > 1 {
      assert Join(parts, '/')[0] == parts[0][0];
    }
  }

  lemma AbsoluteSplit(joined: string)
    ensures Split("/" + joined, '/') == [""] + Split(joined, '/')
  {
    assert ("/" + joined)[1..] == joined;
  }

  /** A component that stands for nothing changes no form. */
  lemma SkippedFirst(f: Form, todo: seq<string>, absolute: bool)
    ensures FoldForm(f, [""] + todo, absolute) == FoldForm(f, todo, absolute)
  {
    assert ([""] + todo)[1..] == todo;
  }

  /** Rendering a form gives a path with exactly that form. */
  lemma FormOfRender(f: Form, absolute: bool, longest: nat)
    requires Proper(f, absolute, longest)
    ensures IsAbsolute(Render(Parts(f), absolute)) == absolute
    ensures FormOf(Render(Parts(f), absolute)) == f
  {
    var parts := Parts(f);
    var joined := Join(parts, '/');
    PartsAreFree(f, absolute, longest);
    PartsFold(f, f.ups, absolute, longest);
    if parts == [] {
      assert f.names == [];
      SplitOfFree(".", '/');
    } else {
      JoinStart(parts);
      SplitOfJoin(parts, '/');
    }
    if absolute {
      AbsoluteSplit(joined);
      SkippedFirst(Form(0, []), Split(joined, '/'), true);
    }
  }

  /** Normalising keeps the form, hence everything below. */
  lemma NormalizeKeepsForm(path: string)
    ensures IsAbsolute(Normalize(path)) == IsAbsolute(path)
    ensures FormOf(Normalize(path)) == FormOf(path)
  {
    NormalizeByForm(path);
    FormOfRender(FormOf(path), IsAbsolute(path), |path|);
  }

  lemma NormalizeIsIdempotent(path: string)
    ensures Normalize(Normalize(path)) == Normalize(path)
  {
    NormalizeKeepsForm(path);
    NormalizeByForm(path);
    NormalizeByForm(Normalize(path));
  }

  /** A path and its normal form name the same place from every working directory. */
  lemma NormalizeKeepsMeaning(cwd: seq<string>, path: string)
    ensures Resolve(cwd, Normalize(path)) == Resolve(cwd, path)
  {
    NormalizeKeepsForm(path);
    FormLeadsThere(cwd, path);
    FormLeadsThere(cwd, Normalize(path));
  }

  // --------------------------------------------------- different forms differ somewhere

  /** A directory deep enough for both paths, whose names occur in neither. */
  function Probe(a: string, b: string): seq<string> {
    seq(FormOf(a).ups + FormOf(b).ups + 1, _ => seq(|a| + |b| + 1, _ => 'x'))
  }

  lemma ProbeIsAPlace(a: string, b: string)
    ensures IsPlace(Probe(a, b))
  {
    var name := seq(|a| + |b| + 1, _ => 'x');
    assert name[0] == 'x';
    assert forall c :: c in name ==> c == 'x';
  }

  lemma FewerUpsDiffer(cwd: seq<string>, f: Form, g: Form, longest: nat)
    requires f.ups < g.ups <= |cwd|
    requires LongNames(cwd, longest)
    requires forall i :: 0 <= i < |g.names| ==> |g.names[i]| <= longest
    ensures At(cwd, f) != At(cwd, g)
  {
    var k := |cwd| - g.ups;
    assert |At(cwd, f)| > k && At(cwd, f)[k] == cwd[k];
    assert |At(cwd, g)| == k + |g.names|;
    assert g.names != [] ==> At(cwd, g)[k] == g.names[0];
  }

  lemma SameUpsAgree(cwd: seq<string>, f: Form, g: Form)
    requires f.ups == g.ups && At(cwd, f) == At(cwd, g)
    ensures f == g
  {
    var k := if f.ups <= |cwd| then |cwd| - f.ups else 0;
    assert At(cwd, f)[k..] == f.names && At(cwd, g)[k..] == g.names;
  }

  ghost predicate LongNames(cwd: seq<string>, longest: nat) {
    forall i :: 0 <= i < |cwd| ==> |cwd[i]| > longest
  }

  lemma KindsDiffer(cwd: seq<string>, a: string, b: string)
    requires IsAbsolute(a) && !IsAbsolute(b)
    requires FormOf(b).ups < |cwd| && LongNames(cwd, |a|)
    ensures Resolve(cwd, a) != Resolve(cwd, b)
  {
    FormLeadsThere(cwd, a);
    FormLeadsThere(cwd, b);
    NormalizeByForm(a);
    assert At(cwd, FormOf(b))[0] == cwd[0];
    assert At([], FormOf(a)) == FormOf(a).names;
  }

  lemma RelativesDiffer(cwd: seq<string>, a: string, b: string)
    requires !IsAbsolute(a) && !IsAbsolute(b)
    requires FormOf(a).ups < FormOf(b).ups <= |cwd| && LongNames(cwd, |b|)
    ensures Resolve(cwd, a) != Resolve(cwd, b)
  {
    FormLeadsThere(cwd, a);
    FormLeadsThere(cwd, b);
    NormalizeByForm(b);
    FewerUpsDiffer(cwd, FormOf(a), FormOf(b), |b|);
  }

  lemma AbsolutesHaveNoUps(a: string)
    requires IsAbsolute(a)
    ensures FormOf(a).ups == 0
  {
    NormalizeByForm(a);
  }

  lemma SameUpsSameForm(cwd: seq<string>, a: string, b: string)
    requires IsAbsolute(a) == IsAbsolute(b) && FormOf(a).ups == FormOf(b).ups
    requires Resolve(cwd, a) == Resolve(cwd, b)
    ensures FormOf(a) == FormOf(b)
  {
    FormLeadsThere(cwd, a);
    FormLeadsThere(cwd, b);
    SameUpsAgree(if IsAbsolute(a) then [] else cwd, FormOf(a), FormOf(b));
  }

  /** Paths that agree from the probe directory have the same form and the same kind. */
  lemma ProbeDecides(a: string, b: string)
    requires Resolve(Probe(a, b), a) == Resolve(Probe(a, b), b)
    ensures IsAbsolute(a) == IsAbsolute(b) && FormOf(a) == FormOf(b)
  {
    var cwd := Probe(a, b);
    assert LongNames(cwd, |a|) && LongNames(cwd, |b|);
    if IsAbsolute(a) != IsAbsolute(b) {
      if IsAbsolute(a) {
        KindsDiffer(cwd, a, b);
      } else {
        KindsDiffer(cwd, b, a);
      }
    } else if IsAbsolute(a) {
      AbsolutesHaveNoUps(a);
      AbsolutesHaveNoUps(b);
      SameUpsSameForm(cwd, a, b);
    } else if FormOf(a).ups < FormOf(b).ups {
      RelativesDiffer(cwd, a, b);
    } else if FormOf(b).ups < FormOf(a).ups {
      RelativesDiffer(cwd, b, a);
    } else {
      SameUpsSameForm(cwd, a, b);
    }
  }

  /** Two paths have the same normal form exactly when they name the same place from every directory. */
  lemma SameFormIffSamePlace(a: string, b: string)
    ensures Normalize(a) == Normalize(b) <==> forall cwd :: IsPlace(cwd) ==> Resolve(cwd, a) == Resolve(cwd, b)
  {
    if Normalize(a) == Normalize(b) {
      forall cwd | IsPlace(cwd) ensures Resolve(cwd, a) == Resolve(cwd, b) {
        NormalizeKeepsMeaning(cwd, a);
        NormalizeKeepsMeaning(cwd, b);
      }
    }
    if forall cwd :: IsPlace(cwd) ==> Resolve(cwd, a) == Resolve(cwd, b) {
      ProbeIsAPlace(a, b);
      assert Resolve(Probe(a, b), a) == Resolve(Probe(a, b), b);
      ProbeDecides(a, b);
      NormalizeByForm(a);
      NormalizeByForm(b);
    }
  }

  /** For absolute paths one look from the root is enough. */
  lemma AbsoluteSameFormIffSamePlace(a: string, b: string)
    requires IsAbsolute(a) && IsAbsolute(b)
    ensures Normalize(a) == Normalize(b) <==> Resolve([], a) == Resolve([], b)
  {
    NormalizeKeepsMeaning([], a);
    NormalizeKeepsMeaning([], b);
    if Resolve([], a) == Resolve([], b) {
      AbsolutesHaveNoUps(a);
      AbsolutesHaveNoUps(b);
      SameUpsSameForm([], a, b);
      NormalizeByForm(a);
      NormalizeByForm(b);
    }
  }

  // ------------------------------------------------------------ busy destinations

  /** What a transfer writes to; a refused path or an unresolvable target never gets this far. */
  datatype Target = Put(remotePath: string) | Get(localPath: string)

  datatype Guard = Guard(key: string, target: Target)

  function KeyOf(t: Target): string {
    match t
    case Put(path) => "put:" + Normalize(path)
    case Get(path) => "get:" + path
  }

  datatype Event = Reserve(target: Target) | Drop(guard: Guard)

  /** The shared set, and the guards that are alive. */
  datatype Busy = Busy(active: set<string>, live: set<Guard>)

  function Apply(s: Busy, e: Event): Busy {
    match e
    case Reserve(t) =>
      if KeyOf(t) in s.active then s
      else Busy(s.active + {KeyOf(t)}, s.live + {Guard(KeyOf(t), t)})
    case Drop(g) =>
      if g in s.live then Busy(s.active - {g.key}, s.live - {g}) else s
  }

  function Run(s: Busy, events: seq<Event>): Busy
    decreases |events|
  {
    if events == [] then s else Run(Apply(s, events[0]), events[1..])
  }

  ghost predicate Consistent(s: Busy) {
    && (forall g :: g in s.live ==> g.key == KeyOf(g.target) && g.key in s.active)
    && (forall k :: k in s.active ==> exists g :: g in s.live && g.key == k)
    && (forall g, h :: g in s.live && h in s.live && g.key == h.key ==> g == h)
  }

  lemma ApplyKeepsConsistent(s: Busy, e: Event)
    requires Consistent(s)
    ensures Consistent(Apply(s, e))
  {
    var t := Apply(s, e);
    forall k | k in t.active ensures exists g :: g in t.live && g.key == k {
      if k in s.active {
        var g :| g in s.live && g.key == k;
        assert g in t.live;
      } else {
        assert Guard(KeyOf(e.target), e.target) in t.live;
      }
    }
  }

  lemma {:induction false} RunKeepsConsistent(s: Busy, events: seq<Event>)
    requires Consistent(s)
    ensures Consistent(Run(s, events))
    decreases |events|
  {
    if events != [] {
      ApplyKeepsConsistent(s, events[0]);
      RunKeepsConsistent(Apply(s, events[0]), events[1..]);
    }
  }

  /** In no run do two live guards write to remote paths that mean the same place. */
  lemma NoTwoPutsToOnePlace(events: seq<Event>, g: Guard, h: Guard)
    requires g in Run(Busy({}, {}), events).live && h in Run(Busy({}, {}), events).live && g != h
    requires g.target.Put? && h.target.Put?
    ensures exists cwd :: IsPlace(cwd) && Resolve(cwd, g.target.remotePath) != Resolve(cwd, h.target.remotePath)
    ensures IsAbsolute(g.target.remotePath) && IsAbsolute(h.target.remotePath) ==>
              Resolve([], g.target.remotePath) != Resolve([], h.target.remotePath)
  {
    var a, b := g.target.remotePath, h.target.remotePath;
    RunKeepsConsistent(Busy({}, {}), events);
    assert g.key != h.key;
    assert Normalize(a) != Normalize(b);
    SameFormIffSamePlace(a, b);
    if IsAbsolute(a) && IsAbsolute(b) {
      AbsoluteSameFormIffSamePlace(a, b);
    }
  }

  /** A reservation is refused exactly when a live guard of the same kind already has that key. */
  lemma RefusedOnlyByALiveGuard(events: seq<Event>, path: string)
    ensures var s := Run(Busy({}, {}), events);
            KeyOf(Put(path)) in s.active <==>
            exists g :: g in s.live && g.target.Put? && Normalize(g.target.remotePath) == Normalize(path)
  {
    var s := Run(Busy({}, {}), events);
    RunKeepsConsistent(Busy({}, {}), events);
    var key := KeyOf(Put(path));
    if key in s.active {
      var g :| g in s.live && g.key == key;
      assert g.key[0] == 'p';
      assert g.target.Put?;
      assert key[4..] == Normalize(path) && g.key[4..] == Normalize(g.target.remotePath);
    }
    if g :| g in s.live && g.target.Put? && Normalize(g.target.remotePath) == Normalize(path) {
      assert g.key == key;
    }
  }

  class TransferEngine {
    var active: set<string>
    ghost var live: set<Guard>

    ghost function State(): Busy
      reads this
    {
      Busy(active, live)
    }

    constructor ()
      ensures State() == Busy({}, {})
    {
      active := {};
      live := {};
    }

    method ReserveDestination(target: Target) returns (guard: Result<Guard, string>)
      modifies this
      ensures State() == Apply(old(State()), Reserve(target))
      ensures guard.Ok? <==> KeyOf(target) !in old(active)
      ensures guard.Ok? ==> guard.value in live && guard.value.target == target
      ensures guard.Err? ==> State() == old(State())
    {
      var key;
      match target {
        case Put(path) =>
          var normal := NormalizeRemotePath(path);
          key := "put:" + normal;
        case Get(path) =>
          key := "get:" + path;
      }
      if key in active {
        return Err("destination busy");
      }
      active := active + {key};
      live := live + {Guard(key, target)};
      return Ok(Guard(key, target));
    }

    method DropGuard(guard: Guard)
      requires guard in live
      modifies this
      ensures State() == Apply(old(State()), Drop(guard))
    {
      active := active - {guard.key};
      live := live - {guard};
    }
  }
}
