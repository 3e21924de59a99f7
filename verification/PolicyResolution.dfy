/**
 * Resolving `extends`: following a policy's chain of sources with a cycle-detecting stack, then
 * composing it root first. The file system and the bundled table are a finite map of sources.
 */
module PolicyResolution {
  import opened Common
  import opened PolicyAst
  import opened PolicyMerge
  import opened PolicyFlattening

  datatype Source = Unreadable | Malformed | Parsed(ast: Policy)

  /**
   * `canonical` gives the canonical path of an existing file, from its path text and, for a
   * relative path, the file whose directory it is relative to.
   */
  datatype World = World(
    files: map<string, Source>,
    bundled: map<string, Source>,
    canonical: map<(string, Option<string>), string>)

  datatype Next = NoParent | Refused(error: ComposeError) | To(id: SourceId)

  predicate ContainsScheme(name: string) {
    exists i :: 0 <= i <= |name| - 3 && SchemeAt(name, i)
  }

  predicate SchemeAt(name: string, i: nat)
    requires i + 3 <= |name|
  {
    name[i..i + 3] == "://"
  }

  const FILE_SCHEME: string := "file://"

  function ResolveFileUri(w: World, uri: string, base: Option<string>): Next {
    if !(FILE_SCHEME <= uri) then Refused(UnsupportedUri(uri))
    else
      var path := uri[|FILE_SCHEME|..];
      if path == "" then Refused(UnresolvableFile(uri))
      else if path[0] != '/' && base.None? then Refused(FilesNotAllowed)
      else
        var key := (path, if path[0] == '/' then None else base);
        if key in w.canonical then To(File(w.canonical[key])) else Refused(UnresolvableFile(uri))
  }

  function BaseOf(id: SourceId): Option<string> {
    if id.File? then Some(id.path) else None
  }

  /** Which source a layer extends. */
  function NextSource(w: World, allowFiles: bool, layer: Layer): Next {
    match layer.ast.base
    case None => NoParent
    case Some(BundledRef(name)) => if ContainsScheme(name) then Refused(UnsupportedUri(name)) else To(Bundled(name))
    case Some(FileRef(uri)) =>
      if !allowFiles then Refused(FilesNotAllowed) else ResolveFileUri(w, uri, BaseOf(layer.id))
  }

  function Load(w: World, id: SourceId): Result<Policy, ComposeError> {
    match id
    case Inline => Err(ParseFailed(id))
    case Bundled(name) =>
      if name !in w.bundled then Err(UnknownBundled(name))
      else if w.bundled[name].Parsed? then Ok(w.bundled[name].ast) else Err(ParseFailed(id))
    case File(path) =>
      if path !in w.files || w.files[path].Unreadable? then Err(UnreadableFile(path))
      else if w.files[path].Parsed? then Ok(w.files[path].ast) else Err(ParseFailed(id))
  }

  function Universe(w: World): set<SourceId> {
    (set p | p in w.files :: File(p)) + (set n | n in w.bundled :: Bundled(n))
  }

  lemma LoadedInUniverse(w: World, id: SourceId, stack: seq<SourceId>)
    requires Load(w, id).Ok? && id !in stack
    ensures |Universe(w) - ToSet(stack + [id])| < |Universe(w) - ToSet(stack)|
  {
    assert id in Universe(w);
    assert Universe(w) - ToSet(stack + [id]) == (Universe(w) - ToSet(stack)) - {id};
  }

  function Labels(ids: seq<SourceId>): seq<string> {
    seq(|ids|, i requires 0 <= i < |ids| => Label(ids[i]))
  }

  function IndexOf(stack: seq<SourceId>, id: SourceId): (i: nat)
    requires id in stack
    ensures i < |stack| && stack[i] == id && id !in stack[..i]
  {
    if stack[0] == id then 0
    else
      assert stack == [stack[0]] + stack[1..];
      var i := IndexOf(stack[1..], id);
      assert stack[..i + 1] == [stack[0]] + stack[1..][..i];
      i + 1
  }

  /** The chain of layers that `layer` extends, root first, or what stops it. */
  function Trace(w: World, allowFiles: bool, layer: Layer, stack: seq<SourceId>): (r: Result<seq<Layer>, ComposeError>)
    ensures r.Ok? ==> r.value != [] && r.value[|r.value| - 1] == layer
    decreases |Universe(w) - ToSet(stack)|
  {
    match NextSource(w, allowFiles, layer)
    case NoParent => Ok([layer])
    case Refused(e) => Err(e)
    case To(id) =>
      if id in stack then Err(CyclicExtends(Labels(stack[IndexOf(stack, id)..]) + [Label(id)]))
      else
        match Load(w, id)
        case Err(e) => Err(e)
        case Ok(ast) =>
          LoadedInUniverse(w, id, stack);
          match Trace(w, allowFiles, Layer(id, ast), stack + [id])
          case Err(e) => Err(e)
          case Ok(ancestors) => Ok(ancestors + [layer])
  }

  function Resolution(w: World, allowFiles: bool, layer: Layer, stack: seq<SourceId>): Result<Resolved, ComposeError> {
    match Trace(w, allowFiles, layer, stack)
    case Err(e) => Err(e)
    case Ok(chain) => Compose(chain)
  }

  // ----- the walk along `extends`, with no stack -----

  function Parent(w: World, allowFiles: bool, layer: Layer): Option<Layer> {
    match NextSource(w, allowFiles, layer)
    case NoParent => None
    case Refused(_) => None
    case To(id) =>
      match Load(w, id)
      case Err(_) => None
      case Ok(ast) => Some(Layer(id, ast))
  }

  /** The layer reached from `layer` after following `extends` `k` times. */
  function Walk(w: World, allowFiles: bool, layer: Layer, k: nat): Option<Layer>
    decreases k
  {
    if k == 0 then Some(layer)
    else
      match Parent(w, allowFiles, layer)
      case None => None
      case Some(p) => Walk(w, allowFiles, p, k - 1)
  }

  ghost predicate SameSource(w: World, allowFiles: bool, layer: Layer, i: nat, j: nat) {
    var a, b := Walk(w, allowFiles, layer, i), Walk(w, allowFiles, layer, j);
    a.Some? && b.Some? && a.value.id == b.value.id
  }

  ghost predicate Revisits(w: World, allowFiles: bool, layer: Layer) {
    exists i: nat, j: nat :: i < j && SameSource(w, allowFiles, layer, i, j)
  }

  /** From `layer` on, the walk meets a source of `stack`, or one of its own again. */
  ghost predicate MeetsAgain(w: World, allowFiles: bool, layer: Layer, stack: seq<SourceId>) {
    || (exists j: nat :: 1 <= j && MeetsAt(w, allowFiles, layer, stack, j))
    || (exists i: nat, j: nat :: 1 <= i < j && SameSource(w, allowFiles, layer, i, j))
  }

  ghost predicate MeetsAt(w: World, allowFiles: bool, layer: Layer, stack: seq<SourceId>, j: nat) {
    var b := Walk(w, allowFiles, layer, j);
    b.Some? && b.value.id in stack
  }

  ghost predicate StackLoaded(w: World, stack: seq<SourceId>) {
    forall s :: s in stack ==> s == Inline || Load(w, s).Ok?
  }

  ghost predicate IsCycleError(r: Result<seq<Layer>, ComposeError>) {
    r.Err? && r.error.CyclicExtends?
  }

  lemma NextNeverInline(w: World, allowFiles: bool, layer: Layer)
    ensures NextSource(w, allowFiles, layer).To? ==> NextSource(w, allowFiles, layer).id != Inline
    ensures NextSource(w, allowFiles, layer).Refused? ==> !NextSource(w, allowFiles, layer).error.CyclicExtends?
  {
  }

  lemma DeadEnd(w: World, allowFiles: bool, layer: Layer, stack: seq<SourceId>)
    requires Parent(w, allowFiles, layer).None?
    ensures !MeetsAgain(w, allowFiles, layer, stack)
  {
    forall j: nat | 1 <= j ensures Walk(w, allowFiles, layer, j).None? {}
  }

  lemma MeetsShift(w: World, allowFiles: bool, layer: Layer, p: Layer, stack: seq<SourceId>)
    requires Parent(w, allowFiles, layer) == Some(p)
    ensures MeetsAgain(w, allowFiles, layer, stack) <==> p.id in stack || MeetsAgain(w, allowFiles, p, stack + [p.id])
  {
    if j: nat :| 1 <= j && MeetsAt(w, allowFiles, layer, stack, j) {
      if j > 1 { assert MeetsAt(w, allowFiles, p, stack + [p.id], j - 1); }
    } else if i: nat, j: nat :| 1 <= i < j && SameSource(w, allowFiles, layer, i, j) {
      if i == 1 {
        assert MeetsAt(w, allowFiles, p, stack + [p.id], j - 1);
      } else {
        assert SameSource(w, allowFiles, p, i - 1, j - 1);
      }
    }
    if p.id in stack {
      assert Walk(w, allowFiles, layer, 1) == Walk(w, allowFiles, p, 0);
      assert MeetsAt(w, allowFiles, layer, stack, 1);
    } else if j: nat :| 1 <= j && MeetsAt(w, allowFiles, p, stack + [p.id], j) {
      if Walk(w, allowFiles, p, j).value.id in stack {
        assert MeetsAt(w, allowFiles, layer, stack, j + 1);
      } else {
        assert Walk(w, allowFiles, layer, 1) == Walk(w, allowFiles, p, 0);
        assert SameSource(w, allowFiles, layer, 1, j + 1);
      }
    } else if i: nat, j: nat :| 1 <= i < j && SameSource(w, allowFiles, p, i, j) {
      assert SameSource(w, allowFiles, layer, i + 1, j + 1);
    }
  }

  /** One step of the trace through a parent that loads and is not on the stack. */
  lemma TraceStep(w: World, allowFiles: bool, layer: Layer, p: Layer, stack: seq<SourceId>)
    requires Parent(w, allowFiles, layer) == Some(p) && p.id !in stack
    ensures |Universe(w) - ToSet(stack + [p.id])| < |Universe(w) - ToSet(stack)|
    ensures var up := Trace(w, allowFiles, p, stack + [p.id]);
            Trace(w, allowFiles, layer, stack) == if up.Err? then Err(up.error) else Ok(up.value + [layer])
  {
    LoadedInUniverse(w, p.id, stack);
  }

  lemma TraceStops(w: World, allowFiles: bool, layer: Layer, stack: seq<SourceId>)
    requires Parent(w, allowFiles, layer).None? && StackLoaded(w, stack)
    ensures !IsCycleError(Trace(w, allowFiles, layer, stack))
    ensures Trace(w, allowFiles, layer, stack).Ok? ==>
              layer.ast.base.None? && Trace(w, allowFiles, layer, stack).value == [layer]
  {
    NextNeverInline(w, allowFiles, layer);
  }

  lemma TraceRefuses(w: World, allowFiles: bool, layer: Layer, p: Layer, stack: seq<SourceId>)
    requires Parent(w, allowFiles, layer) == Some(p) && p.id in stack
    ensures IsCycleError(Trace(w, allowFiles, layer, stack))
  {
  }

  lemma {:induction false} TraceCycleIff(w: World, allowFiles: bool, layer: Layer, stack: seq<SourceId>)
    requires StackLoaded(w, stack)
    ensures IsCycleError(Trace(w, allowFiles, layer, stack)) <==> MeetsAgain(w, allowFiles, layer, stack)
    decreases |Universe(w) - ToSet(stack)|
  {
    match Parent(w, allowFiles, layer) {
      case None =>
        TraceStops(w, allowFiles, layer, stack);
        DeadEnd(w, allowFiles, layer, stack);
      case Some(p) =>
        MeetsShift(w, allowFiles, layer, p, stack);
        if p.id in stack {
          TraceRefuses(w, allowFiles, layer, p, stack);
        } else {
          TraceStep(w, allowFiles, layer, p, stack);
          TraceCycleIff(w, allowFiles, p, stack + [p.id]);
        }
    }
  }

  /** How a resolution starts: a file pushes itself, an inline source does not. */
  ghost predicate EntryStack(w: World, layer: Layer, stack: seq<SourceId>) {
    (stack == [] && layer.id == Inline) || (stack == [layer.id] && Load(w, layer.id).Ok?)
  }

  lemma {:induction false} WalkNotInline(w: World, allowFiles: bool, layer: Layer, j: nat)
    requires j > 0 && Walk(w, allowFiles, layer, j).Some?
    ensures Walk(w, allowFiles, layer, j).value.id != Inline
    decreases j
  {
    NextNeverInline(w, allowFiles, layer);
    if j > 1 { WalkNotInline(w, allowFiles, Parent(w, allowFiles, layer).value, j - 1); }
  }

  /** Resolution reports a cycle exactly when the chain of `extends` revisits a source. */
  lemma CycleReportedIff(w: World, allowFiles: bool, layer: Layer, stack: seq<SourceId>)
    requires EntryStack(w, layer, stack)
    ensures IsCycleError(Trace(w, allowFiles, layer, stack)) <==> Revisits(w, allowFiles, layer)
  {
    TraceCycleIff(w, allowFiles, layer, stack);
    if i: nat, j: nat :| i < j && SameSource(w, allowFiles, layer, i, j) {
      WalkNotInline(w, allowFiles, layer, j);
      if i == 0 { assert MeetsAt(w, allowFiles, layer, stack, j); }
    }
    if j: nat :| 1 <= j && MeetsAt(w, allowFiles, layer, stack, j) {
      assert SameSource(w, allowFiles, layer, 0, j);
    }
  }

  /**
   * What a successful resolution gives a compiler, duplicate names or not: no phase that extends,
   * the recorded sources of exactly the phases, and the ancestors root first.
   */
  lemma ResolvedIsCompilable(w: World, allowFiles: bool, layer: Layer, stack: seq<SourceId>)
    requires Resolution(w, allowFiles, layer, stack).Ok?
    ensures var r := Resolution(w, allowFiles, layer, stack).value;
            Compilable(Trace(w, allowFiles, layer, stack).value, r) && FirstExtend(r.ast.phases, 0).None?
  {
    ComposedIsCompilable(Trace(w, allowFiles, layer, stack).value);
  }

  // ----- what `extends` means -----

  ghost predicate HasScheme(name: string) {
    exists a: string, b: string :: name == a + "://" + b
  }

  /** The file that `path` names, seen from source `from`: a relative path is relative to that source's own file. */
  ghost predicate Locates(w: World, from: SourceId, path: string, file: string) {
    path != "" &&
    if path[0] == '/' then (path, None) in w.canonical && w.canonical[(path, None)] == file
    else from.File? && (path, Some(from.path)) in w.canonical && w.canonical[(path, Some(from.path))] == file
  }

  /** Source `layer` names `next` as what it extends: a bundled policy, or a file behind `file://`. */
  ghost predicate LeadsTo(w: World, layer: Layer, next: Layer) {
    match layer.ast.base
    case None => false
    case Some(BundledRef(name)) =>
      && !HasScheme(name) && next.id == Bundled(name)
      && name in w.bundled && w.bundled[name] == Parsed(next.ast)
    case Some(FileRef(uri)) =>
      && "file://" <= uri && next.id.File? && Locates(w, layer.id, uri[7..], next.id.path)
      && next.id.path in w.files && w.files[next.id.path] == Parsed(next.ast)
  }

  ghost predicate Follows(w: World, allowFiles: bool, layer: Layer, next: Layer) {
    LeadsTo(w, layer, next) && (layer.ast.base.value.FileRef? ==> allowFiles)
  }

  /** Following the `extends` of `layer` fails with `e`. */
  ghost predicate Blocked(w: World, allowFiles: bool, layer: Layer, e: ComposeError) {
    match layer.ast.base
    case None => false
    case Some(BundledRef(name)) =>
      if HasScheme(name) then e == UnsupportedUri(name)
      else if name !in w.bundled then e == UnknownBundled(name)
      else !w.bundled[name].Parsed? && e == ParseFailed(Bundled(name))
    case Some(FileRef(uri)) =>
      if !allowFiles then e == FilesNotAllowed
      else if !("file://" <= uri) then e == UnsupportedUri(uri)
      else BlockedFile(w, layer.id, uri, uri[7..], e)
  }

  ghost predicate BlockedFile(w: World, from: SourceId, uri: string, path: string, e: ComposeError) {
    || (path == "" && e == UnresolvableFile(uri))
    || (path != "" && path[0] != '/' && !from.File? && e == FilesNotAllowed)
    || (path != "" && (path[0] == '/' || from.File?) && (forall file :: !Locates(w, from, path, file)) &&
        e == UnresolvableFile(uri))
    || (exists file :: Locates(w, from, path, file) && FailsToLoad(w, file, e))
  }

  ghost predicate FailsToLoad(w: World, file: string, e: ComposeError) {
    if file !in w.files || w.files[file].Unreadable? then e == UnreadableFile(file)
    else w.files[file].Malformed? && e == ParseFailed(File(file))
  }

  lemma SchemeIff(name: string)
    ensures ContainsScheme(name) <==> HasScheme(name)
  {
    if i :| 0 <= i <= |name| - 3 && SchemeAt(name, i) {
      assert name == name[..i] + "://" + name[i + 3..];
    }
    if a: string, b: string :| name == a + "://" + b {
      assert name[|a|..|a| + 3] == "://";
      assert SchemeAt(name, |a|);
    }
  }

  lemma ParentMeans(w: World, allowFiles: bool, layer: Layer, next: Layer)
    ensures Parent(w, allowFiles, layer) == Some(next) <==> Follows(w, allowFiles, layer, next)
  {
    if layer.ast.base.Some? && layer.ast.base.value.BundledRef? { SchemeIff(layer.ast.base.value.name); }
  }

  ghost predicate Stops(w: World, allowFiles: bool, layer: Layer, e: ComposeError) {
    var next := NextSource(w, allowFiles, layer);
    next == Refused(e) || (next.To? && Load(w, next.id) == Err(e))
  }

  lemma StopMeans(w: World, allowFiles: bool, layer: Layer, e: ComposeError)
    ensures Stops(w, allowFiles, layer, e) <==> Blocked(w, allowFiles, layer, e)
  {
    match layer.ast.base
    case None =>
    case Some(BundledRef(name)) => SchemeIff(name);
    case Some(FileRef(uri)) =>
      if allowFiles && FILE_SCHEME <= uri { FileStopMeans(w, layer.id, uri, e); }
  }

  lemma FileStopMeans(w: World, from: SourceId, uri: string, e: ComposeError)
    requires FILE_SCHEME <= uri
    ensures var next := ResolveFileUri(w, uri, BaseOf(from));
            next == Refused(e) || (next.To? && Load(w, next.id) == Err(e)) <==>
            BlockedFile(w, from, uri, uri[7..], e)
  {
    var path := uri[7..];
    var next := ResolveFileUri(w, uri, BaseOf(from));
    if next.To? {
      assert Locates(w, from, path, next.id.path);
      assert forall file :: Locates(w, from, path, file) ==> file == next.id.path;
    }
  }

  /** Each layer of `path` leads to the one after it. */
  ghost predicate IsPath(w: World, allowFiles: bool, path: seq<Layer>) {
    path != [] && forall i :: 0 <= i < |path| - 1 ==> Follows(w, allowFiles, path[i], path[i + 1])
  }

  /** Following `extends` from `layer` comes back to a source. */
  ghost predicate Circles(w: World, allowFiles: bool, layer: Layer) {
    exists path: seq<Layer> :: IsPath(w, allowFiles, path) && path[0] == layer && Repeats(path)
  }

  ghost predicate Repeats(path: seq<Layer>) {
    exists i, j :: 0 <= i < j < |path| && path[i].id == path[j].id
  }

  lemma {:induction false} PathIsWalk(w: World, allowFiles: bool, path: seq<Layer>, k: nat)
    requires IsPath(w, allowFiles, path) && k < |path|
    ensures Walk(w, allowFiles, path[0], k) == Some(path[k])
    decreases k
  {
    if k > 0 {
      ParentMeans(w, allowFiles, path[0], path[1]);
      PathIsWalk(w, allowFiles, path[1..], k - 1);
    }
  }

  lemma {:induction false} WalkIsPath(w: World, allowFiles: bool, layer: Layer, k: nat) returns (path: seq<Layer>)
    requires Walk(w, allowFiles, layer, k).Some?
    ensures IsPath(w, allowFiles, path) && path[0] == layer && |path| == k + 1
    decreases k
  {
    path := [layer];
    if k > 0 {
      var p := Parent(w, allowFiles, layer).value;
      ParentMeans(w, allowFiles, layer, p);
      var rest := WalkIsPath(w, allowFiles, p, k - 1);
      path := [layer] + rest;
    }
  }

  lemma RevisitsIff(w: World, allowFiles: bool, layer: Layer)
    ensures Revisits(w, allowFiles, layer) <==> Circles(w, allowFiles, layer)
  {
    if i: nat, j: nat :| i < j && SameSource(w, allowFiles, layer, i, j) {
      var path := WalkIsPath(w, allowFiles, layer, j);
      PathIsWalk(w, allowFiles, path, i);
      PathIsWalk(w, allowFiles, path, j);
      assert path[i].id == path[j].id;
      assert Repeats(path);
    }
    if path: seq<Layer> :| IsPath(w, allowFiles, path) && path[0] == layer && Repeats(path) {
      var i, j :| 0 <= i < j < |path| && path[i].id == path[j].id;
      PathIsWalk(w, allowFiles, path, i);
      PathIsWalk(w, allowFiles, path, j);
      assert SameSource(w, allowFiles, layer, i, j);
    }
  }

  /** A path that ends in a blocked layer decides the error, unless a cycle does. */
  lemma {:induction false} TraceBlocked(w: World, allowFiles: bool, path: seq<Layer>, stack: seq<SourceId>,
                                        e: ComposeError)
    requires IsPath(w, allowFiles, path) && Blocked(w, allowFiles, path[|path| - 1], e) && StackLoaded(w, stack)
    ensures IsCycleError(Trace(w, allowFiles, path[0], stack)) || Trace(w, allowFiles, path[0], stack) == Err(e)
    decreases |path|
  {
    var n := |path| - 1;
    if n == 0 {
      StoppedTrace(w, allowFiles, path[0], stack, e);
    } else {
      assert Follows(w, allowFiles, path[0], path[1]);
      ParentMeans(w, allowFiles, path[0], path[1]);
      if path[1].id in stack {
        TraceRefuses(w, allowFiles, path[0], path[1], stack);
      } else {
        PathTail(w, allowFiles, path);
        TraceStep(w, allowFiles, path[0], path[1], stack);
        TraceBlocked(w, allowFiles, path[1..], stack + [path[1].id], e);
      }
    }
  }

  lemma StoppedTrace(w: World, allowFiles: bool, layer: Layer, stack: seq<SourceId>, e: ComposeError)
    requires Blocked(w, allowFiles, layer, e) && StackLoaded(w, stack)
    ensures Trace(w, allowFiles, layer, stack) == Err(e)
  {
    StopMeans(w, allowFiles, layer, e);
    NextNeverInline(w, allowFiles, layer);
  }

  lemma PathTail(w: World, allowFiles: bool, path: seq<Layer>)
    requires IsPath(w, allowFiles, path) && |path| > 1
    ensures IsPath(w, allowFiles, path[1..]) && path[1..][|path| - 2] == path[|path| - 1]
  {
    var rest := path[1..];
    forall i | 0 <= i < |rest| - 1 ensures Follows(w, allowFiles, rest[i], rest[i + 1]) {
      assert Follows(w, allowFiles, path[i + 1], path[i + 2]);
    }
  }

  /** And an error is a cycle or comes from such a path. */
  lemma {:induction false} TraceError(w: World, allowFiles: bool, layer: Layer, stack: seq<SourceId>)
    returns (path: seq<Layer>)
    requires Trace(w, allowFiles, layer, stack).Err? && !IsCycleError(Trace(w, allowFiles, layer, stack))
    requires StackLoaded(w, stack)
    ensures IsPath(w, allowFiles, path) && path[0] == layer
    ensures Blocked(w, allowFiles, path[|path| - 1], Trace(w, allowFiles, layer, stack).error)
    decreases |Universe(w) - ToSet(stack)|
  {
    match Parent(w, allowFiles, layer) {
      case None =>
        path := [layer];
        StopMeans(w, allowFiles, layer, Trace(w, allowFiles, layer, stack).error);
        NextNeverInline(w, allowFiles, layer);
      case Some(p) =>
        assert p.id !in stack by { if p.id in stack { TraceRefuses(w, allowFiles, layer, p, stack); } }
        TraceStep(w, allowFiles, layer, p, stack);
        var rest := TraceError(w, allowFiles, p, stack + [p.id]);
        ParentMeans(w, allowFiles, layer, p);
        path := [layer] + rest;
    }
  }

  /** `chain` holds the layers that `layer` builds on, root first, each extended by the next. */
  ghost predicate IsChain(w: World, allowFiles: bool, layer: Layer, chain: seq<Layer>) {
    && chain != [] && chain[0].ast.base.None? && chain[|chain| - 1] == layer
    && forall i :: 0 < i < |chain| ==> Follows(w, allowFiles, chain[i], chain[i - 1])
  }

  /** And there is no other. */
  lemma {:induction false} TraceChain(w: World, allowFiles: bool, layer: Layer, chain: seq<Layer>,
                                      stack: seq<SourceId>)
    requires IsChain(w, allowFiles, layer, chain)
    ensures IsCycleError(Trace(w, allowFiles, layer, stack)) || Trace(w, allowFiles, layer, stack) == Ok(chain)
    decreases |chain|
  {
    var n := |chain| - 1;
    if n == 0 {
      assert chain == [layer];
    } else {
      var p := chain[n - 1];
      ParentMeans(w, allowFiles, layer, p);
      if p.id in stack {
        TraceRefuses(w, allowFiles, layer, p, stack);
      } else {
        TraceStep(w, allowFiles, layer, p, stack);
        TraceChain(w, allowFiles, p, chain[..n], stack + [p.id]);
        assert chain == chain[..n] + [layer];
      }
    }
  }

  /** A found chain is made of the layers that `extends` names, up to one that extends nothing. */
  lemma {:induction false} TraceIsChain(w: World, allowFiles: bool, layer: Layer, stack: seq<SourceId>)
    requires Trace(w, allowFiles, layer, stack).Ok? && StackLoaded(w, stack)
    ensures IsChain(w, allowFiles, layer, Trace(w, allowFiles, layer, stack).value)
    decreases |Universe(w) - ToSet(stack)|
  {
    match Parent(w, allowFiles, layer) {
      case None => TraceStops(w, allowFiles, layer, stack);
      case Some(p) =>
        assert p.id !in stack by { if p.id in stack { TraceRefuses(w, allowFiles, layer, p, stack); } }
        TraceStep(w, allowFiles, layer, p, stack);
        TraceIsChain(w, allowFiles, p, stack + [p.id]);
        ParentMeans(w, allowFiles, layer, p);
    }
  }

  // ----- a walk that ends meets no source twice -----

  lemma {:induction false} WalkOn(w: World, allowFiles: bool, layer: Layer, k: nat)
    ensures var x := Walk(w, allowFiles, layer, k);
            Walk(w, allowFiles, layer, k + 1) == if x.None? then None else Parent(w, allowFiles, x.value)
    decreases k
  {
    if k > 0 && Parent(w, allowFiles, layer).Some? { WalkOn(w, allowFiles, Parent(w, allowFiles, layer).value, k - 1); }
  }

  lemma {:induction false} WalkEnded(w: World, allowFiles: bool, layer: Layer, k: nat, m: nat)
    requires k <= m && Walk(w, allowFiles, layer, k).None?
    ensures Walk(w, allowFiles, layer, m).None?
    decreases m - k
  {
    if k < m {
      WalkOn(w, allowFiles, layer, k);
      WalkEnded(w, allowFiles, layer, k + 1, m);
    }
  }

  lemma {:induction false} WalkInStep(w: World, allowFiles: bool, layer: Layer, i: nat, j: nat, d: nat)
    requires Walk(w, allowFiles, layer, i) == Walk(w, allowFiles, layer, j)
    ensures Walk(w, allowFiles, layer, i + d) == Walk(w, allowFiles, layer, j + d)
    decreases d
  {
    if d > 0 {
      WalkInStep(w, allowFiles, layer, i, j, d - 1);
      WalkOn(w, allowFiles, layer, i + d - 1);
      WalkOn(w, allowFiles, layer, j + d - 1);
    }
  }

  /** A source met again is the same layer again. */
  lemma SameSourceSameLayer(w: World, allowFiles: bool, layer: Layer, stack: seq<SourceId>, i: nat, j: nat)
    requires EntryStack(w, layer, stack) && (layer.id != Inline ==> Load(w, layer.id) == Ok(layer.ast))
    requires i < j && SameSource(w, allowFiles, layer, i, j)
    ensures Walk(w, allowFiles, layer, i) == Walk(w, allowFiles, layer, j)
  {
    WalkNotInline(w, allowFiles, layer, j);
    if i > 0 { WalkOn(w, allowFiles, layer, i - 1); }
    WalkOn(w, allowFiles, layer, j - 1);
  }

  lemma EndedNotCircling(w: World, allowFiles: bool, layer: Layer, stack: seq<SourceId>, k: nat)
    requires EntryStack(w, layer, stack) && (layer.id != Inline ==> Load(w, layer.id) == Ok(layer.ast))
    requires Walk(w, allowFiles, layer, k).Some? && Walk(w, allowFiles, layer, k + 1).None?
    ensures !Revisits(w, allowFiles, layer)
  {
    forall i: nat, j: nat | i < j ensures !SameSource(w, allowFiles, layer, i, j) {
      if SameSource(w, allowFiles, layer, i, j) {
        SameSourceSameLayer(w, allowFiles, layer, stack, i, j);
        if j > k {
          WalkEnded(w, allowFiles, layer, k + 1, j);
        } else {
          WalkInStep(w, allowFiles, layer, i, j, k + 1 - j);
          WalkEnded(w, allowFiles, layer, i + k + 1 - j, k);
        }
      }
    }
  }

  // ----- the imperative form -----

  class Resolver {
    const world: World
    const allowFiles: bool
    var stack: seq<SourceId>

    constructor (world: World, allowFiles: bool)
      ensures this.world == world && this.allowFiles == allowFiles && stack == []
    {
      this.world, this.allowFiles := world, allowFiles;
      stack := [];
    }

    method PushSource(id: SourceId) returns (r: Result<(), ComposeError>)
      modifies this
      ensures r.Ok? <==> id !in old(stack)
      ensures stack == if r.Ok? then old(stack) + [id] else old(stack)
      ensures r.Err? ==> id in stack && r.error == CyclicExtends(Labels(stack[IndexOf(stack, id)..]) + [Label(id)])
    {
      if id in stack {
        return Err(CyclicExtends(Labels(stack[IndexOf(stack, id)..]) + [Label(id)]));
      }
      stack := stack + [id];
      r := Ok(());
    }

    /**
     * `resolve_file_path` and `resolve_bundled_policy`. The stack is popped once the layer itself
     * is resolved, well or not; a source that cannot be read or parsed is left on it.
     */
    method ResolveSource(id: SourceId) returns (r: Result<Resolved, ComposeError>)
      modifies this
      decreases |Universe(world) - ToSet(stack)|, 0
      ensures old(stack) <= stack
      ensures r.Ok? ==> stack == old(stack)
      ensures r == (if id in old(stack)
              then Err(CyclicExtends(Labels(old(stack)[IndexOf(old(stack), id)..]) + [Label(id)]))
                    else if Load(world, id).Err? then Err(Load(world, id).error)
                    else Resolution(world, allowFiles, Layer(id, Load(world, id).value), old(stack) + [id]))
    {
      var pushed := PushSource(id);
      if pushed.Err? {
        return Err(pushed.error);
      }
      var ast := Load(world, id);
      if ast.Err? {
        return Err(ast.error);
      }
      LoadedInUniverse(world, id, old(stack));
      r := ResolveAst(Layer(id, ast.value));
      stack := stack[..|stack| - 1];
    }

    method ResolveAst(layer: Layer) returns (r: Result<Resolved, ComposeError>)
      modifies this
      decreases |Universe(world) - ToSet(stack)|, 1
      ensures old(stack) <= stack
      ensures r.Ok? ==> stack == old(stack)
      ensures r == Resolution(world, allowFiles, layer, old(stack))
    {
      match NextSource(world, allowFiles, layer) {
        case NoParent =>
          r := Root(layer);
        case Refused(e) =>
          r := Err(e);
        case To(id) =>
          var parent := ResolveSource(id);
          ResolutionStep(world, allowFiles, layer, old(stack), id);
          if parent.Err? {
            return Err(parent.error);
          }
          r := MergePolicy(parent.value, layer.ast, layer.id);
      }
    }
  }

  /** Resolving a layer is resolving its parent and merging onto it. */
  lemma ResolutionStep(w: World, allowFiles: bool, layer: Layer, stack: seq<SourceId>, id: SourceId)
    requires NextSource(w, allowFiles, layer) == To(id)
    ensures id !in stack && Load(w, id).Ok? ==>
              var parent := Resolution(w, allowFiles, Layer(id, Load(w, id).value), stack + [id]);
              Resolution(w, allowFiles, layer, stack) ==
              if parent.Err? then Err(parent.error) else Merge(parent.value, layer.ast, layer.id)
  {
    if id !in stack && Load(w, id).Ok? {
      var up := Trace(w, allowFiles, Layer(id, Load(w, id).value), stack + [id]);
      if up.Ok? {
        assert (up.value + [layer])[..|up.value|] == up.value;
      }
    }
  }

  // ----- the entry points -----

  lemma {:induction false} RestNeverCyclic(st: MergeState, child: seq<PhaseNode>, n: nat)
    requires |st.consumed| == |child| && n <= |child|
    ensures MergeRest(st, child, n).Err? ==> MergeRest(st, child, n).error.NoParentPhase?
  {
    if n > 0 { RestNeverCyclic(st, child, n - 1); }
  }

  /** Composing a found chain can fail only over a phase that extends nothing. */
  lemma {:induction false} ComposeNeverCyclic(chain: seq<Layer>)
    requires chain != []
    ensures var r := Compose(chain); r.Err? ==> r.error.NoParentPhase? || r.error.UnresolvedExtend?
  {
    if |chain| > 1 {
      var last := chain[|chain| - 1];
      ComposeNeverCyclic(chain[..|chain| - 1]);
      var parent := Compose(chain[..|chain| - 1]);
      if parent.Ok? {
        var st := MergeParents(parent.value, last.ast.phases, Label(last.id), |parent.value.ast.phases|);
        RestNeverCyclic(st, last.ast.phases, |last.ast.phases|);
      }
    }
  }

  ghost predicate ReportsCycle(r: Result<Resolved, ComposeError>) { r.Err? && r.error.CyclicExtends? }

  lemma EntryReportsCycleIff(w: World, allowFiles: bool, layer: Layer, stack: seq<SourceId>)
    requires EntryStack(w, layer, stack)
    ensures ReportsCycle(Resolution(w, allowFiles, layer, stack)) <==> Revisits(w, allowFiles, layer)
  {
    CycleReportedIff(w, allowFiles, layer, stack);
    var t := Trace(w, allowFiles, layer, stack);
    if t.Ok? { ComposeNeverCyclic(t.value); }
  }

  /**
   * The outcome of resolving `layer`, exactly: a cycle is reported when following `extends` comes
   * back to a source; a layer on the way whose `extends` cannot be followed gives its error; else
   * the chain found is composed. One of the three is the case.
   */
  ghost predicate Outcome(w: World, allowFiles: bool, layer: Layer, r: Result<Resolved, ComposeError>) {
    && (ReportsCycle(r) <==> Circles(w, allowFiles, layer))
    && (forall path: seq<Layer>, e :: BlockedOn(w, allowFiles, layer, path, e) ==> r == Err(e))
    && (forall chain: seq<Layer> :: IsChain(w, allowFiles, layer, chain) ==> r == Compose(chain))
    && (|| Circles(w, allowFiles, layer)
        || (exists path: seq<Layer>, e :: BlockedOn(w, allowFiles, layer, path, e))
        || (exists chain: seq<Layer> :: IsChain(w, allowFiles, layer, chain)))
  }

  ghost predicate BlockedOn(w: World, allowFiles: bool, layer: Layer, path: seq<Layer>, e: ComposeError) {
    IsPath(w, allowFiles, path) && path[0] == layer && Blocked(w, allowFiles, path[|path| - 1], e)
  }

  lemma EntryOutcome(w: World, allowFiles: bool, layer: Layer, stack: seq<SourceId>)
    requires EntryStack(w, layer, stack) && (layer.id != Inline ==> Load(w, layer.id) == Ok(layer.ast))
    ensures Outcome(w, allowFiles, layer, Resolution(w, allowFiles, layer, stack))
  {
    EntryReportsCycleIff(w, allowFiles, layer, stack);
    CycleReportedIff(w, allowFiles, layer, stack);
    RevisitsIff(w, allowFiles, layer);
    var t := Trace(w, allowFiles, layer, stack);
    if t.Ok? {
      TraceIsChain(w, allowFiles, layer, stack);
    } else if !IsCycleError(t) {
      var path := TraceError(w, allowFiles, layer, stack);
      assert BlockedOn(w, allowFiles, layer, path, t.error);
    }
    forall path: seq<Layer>, e | BlockedOn(w, allowFiles, layer, path, e) ensures t == Err(e) {
      BlockedDecides(w, allowFiles, layer, stack, path, e);
    }
    forall chain: seq<Layer> | IsChain(w, allowFiles, layer, chain) ensures t == Ok(chain) {
      ChainDecides(w, allowFiles, layer, stack, chain);
    }
  }

  lemma BlockedDecides(w: World, allowFiles: bool, layer: Layer, stack: seq<SourceId>, path: seq<Layer>,
                       e: ComposeError)
    requires EntryStack(w, layer, stack) && (layer.id != Inline ==> Load(w, layer.id) == Ok(layer.ast))
    requires BlockedOn(w, allowFiles, layer, path, e)
    ensures Trace(w, allowFiles, layer, stack) == Err(e)
  {
    var k := |path| - 1;
    TraceBlocked(w, allowFiles, path, stack, e);
    PathIsWalk(w, allowFiles, path, k);
    WalkOn(w, allowFiles, layer, k);
    StopMeans(w, allowFiles, path[k], e);
    EndedNotCircling(w, allowFiles, layer, stack, k);
    CycleReportedIff(w, allowFiles, layer, stack);
  }

  lemma {:induction false} ChainIsWalk(w: World, allowFiles: bool, layer: Layer, chain: seq<Layer>)
    requires IsChain(w, allowFiles, layer, chain)
    ensures Walk(w, allowFiles, layer, |chain| - 1) == Some(chain[0])
    decreases |chain|
  {
    var n := |chain| - 1;
    if n > 0 {
      ParentMeans(w, allowFiles, layer, chain[n - 1]);
      ChainIsWalk(w, allowFiles, chain[n - 1], chain[..n]);
    }
  }

  lemma ChainDecides(w: World, allowFiles: bool, layer: Layer, stack: seq<SourceId>, chain: seq<Layer>)
    requires EntryStack(w, layer, stack) && (layer.id != Inline ==> Load(w, layer.id) == Ok(layer.ast))
    requires IsChain(w, allowFiles, layer, chain)
    ensures Trace(w, allowFiles, layer, stack) == Ok(chain)
  {
    TraceChain(w, allowFiles, layer, chain, stack);
    ChainIsWalk(w, allowFiles, layer, chain);
    WalkOn(w, allowFiles, layer, |chain| - 1);
    EndedNotCircling(w, allowFiles, layer, stack, |chain| - 1);
    CycleReportedIff(w, allowFiles, layer, stack);
  }

  /** `resolve_policy_file`: the file itself must be found, read and parsed; then its chain decides. */
  method ResolvePolicyFile(w: World, path: string) returns (r: Result<Resolved, ComposeError>)
    ensures (path, None) !in w.canonical ==> r == Err(UnresolvableFile(path))
    ensures (path, None) in w.canonical ==>
            var file := w.canonical[(path, None)];
            if file !in w.files || w.files[file].Unreadable? then r == Err(UnreadableFile(file))
            else if w.files[file].Malformed? then r == Err(ParseFailed(File(file)))
            else Outcome(w, true, Layer(File(file), w.files[file].ast), r)
  {
    if (path, None) !in w.canonical { return Err(UnresolvableFile(path)); }
    var id := File(w.canonical[(path, None)]);
    var resolver := new Resolver(w, true);
    r := resolver.ResolveSource(id);
    if Load(w, id).Ok? {
      assert [] + [id] == [id];
      EntryOutcome(w, true, Layer(id, Load(w, id).value), [id]);
    }
  }

  /** From an inline source every layer behind the first is bundled. */
  lemma {:induction false} InlineChainBundled(w: World, layer: Layer, chain: seq<Layer>, i: nat)
    requires IsChain(w, false, layer, chain) && i < |chain| - 1
    ensures chain[i].id.Bundled? && chain[i].id.name in w.bundled && w.bundled[chain[i].id.name] == Parsed(chain[i].ast)
  {
    assert Follows(w, false, chain[i + 1], chain[i]);
  }

  /** `resolve_policy_with_bundled`: the same for an inline source, which may extend bundled policies only. */
  method ResolvePolicyWithBundled(w: World, source: Source) returns (r: Result<Resolved, ComposeError>)
    ensures !source.Parsed? ==> r == Err(ParseFailed(Inline))
    ensures source.Parsed? ==> Outcome(w, false, Layer(Inline, source.ast), r)
    ensures source.Parsed? && source.ast.base.Some? && source.ast.base.value.FileRef? ==> r == Err(FilesNotAllowed)
    ensures source.Parsed? && r.Ok? ==>
            exists chain: seq<Layer> ::
              && IsChain(w, false, Layer(Inline, source.ast), chain) && r == Compose(chain)
              && forall i :: 0 <= i < |chain| - 1 ==> chain[i].id.Bundled?
  {
    if !source.Parsed? { return Err(ParseFailed(Inline)); }
    var layer := Layer(Inline, source.ast);
    var resolver := new Resolver(w, false);
    r := resolver.ResolveAst(layer);
    EntryOutcome(w, false, layer, []);
    if source.ast.base.Some? && source.ast.base.value.FileRef? {
      assert BlockedOn(w, false, layer, [layer], FilesNotAllowed);
    }
    if r.Ok? {
      var chain := Trace(w, false, layer, []).value;
      TraceIsChain(w, false, layer, []);
      forall i | 0 <= i < |chain| - 1 ensures chain[i].id.Bundled? { InlineChainBundled(w, layer, chain, i); }
    }
  }
}
