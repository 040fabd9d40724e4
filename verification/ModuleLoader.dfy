/** The module loader: a depth-first search over the import graph. */
module ModuleLoaders {
  import opened ImportGraph

  type FileId = nat

  datatype LoadedModule = LoadedModule(id: FileId, path: Path, imports: seq<Import>)

  // ----- what the loader's tables mean -----

  /** Files are numbered in load order and the table is the inverse of the numbering. */
  ghost predicate Indexed(files: seq<LoadedModule>, loaded: map<Path, FileId>) {
    && (forall i :: 0 <= i < |files| ==> files[i].id == i && files[i].path in loaded && loaded[files[i].path] == i)
    && (forall p :: p in loaded ==> loaded[p] < |files| && files[loaded[p]].path == p)
  }

  /** Modules whose imports are all loaded, each after everything that it imports. */
  ghost predicate Finished(fs: FileSystem, order: seq<Path>) {
    && (forall i, j :: 0 <= i < j < |order| ==> order[i] != order[j])
    && (forall i {:trigger Settled(fs, order, i)} :: 0 <= i < |order| ==> Settled(fs, order, i))
  }

  ghost predicate Settled(fs: FileSystem, order: seq<Path>, i: nat)
    requires i < |order|
  {
    && (forall e :: !Wrong(fs, order[i], e))
    && (forall b {:trigger Edge(fs, order[i], b)} :: Edge(fs, order[i], b) ==> b in order[..i])
  }

  ghost predicate Split(loaded: map<Path, FileId>, visiting: seq<Path>, order: seq<Path>) {
    && (forall p :: p in loaded <==> p in visiting || p in order)
    && (forall p :: p in visiting ==> p !in order)
    && (forall i, j :: 0 <= i < j < |visiting| ==> visiting[i] != visiting[j])
  }

  /** An error is genuine: it names something wrong with a module reachable from the top of the
      stack, or a walk along imports that starts with the stack and comes back to a module. */
  ghost predicate Genuine(fs: FileSystem, stack: seq<Path>, e: Error)
    requires stack != []
  {
    || (exists q :: Reaches(fs, stack[|stack| - 1], q) && Wrong(fs, q, e))
    || (e.Circular? && stack <= e.trail && Walk(fs, e.trail) && e.trail[|e.trail| - 1] in e.trail[..|e.trail| - 1])
  }

  /** An error further up the stack is one for the module below it. */
  lemma Lower(fs: FileSystem, stack: seq<Path>, b: Path, e: Error)
    requires stack != [] && Edge(fs, stack[|stack| - 1], b) && Genuine(fs, stack + [b], e)
    ensures Genuine(fs, stack, e)
  {
    if q :| Reaches(fs, b, q) && Wrong(fs, q, e) {
      ReachesStep(fs, stack[|stack| - 1], b, q);
    } else {
      assert stack <= stack + [b] <= e.trail;
    }
  }

  /** Everything new in the order is reachable. */
  ghost predicate Grown(fs: FileSystem, before: seq<Path>, after: seq<Path>, p: Path) {
    before <= after && forall i {:trigger after[i]} :: |before| <= i < |after| ==> Reaches(fs, p, after[i])
  }

  lemma Deeper(fs: FileSystem, before: seq<Path>, after: seq<Path>, p: Path, q: Path)
    requires Grown(fs, before, after, q) && Edge(fs, p, q)
    ensures Grown(fs, before, after, p)
  {
    forall i | |before| <= i < |after| ensures Reaches(fs, p, after[i]) { ReachesStep(fs, p, q, after[i]); }
  }

  /** The i-th import has nothing wrong, and what it names is finished. */
  ghost predicate Handled(fs: FileSystem, order: seq<Path>, i: Import) {
    Fault(fs, i) == [] && (Relative(i) ==> fs.Canonicalize(i.target).Ok? && fs.Canonicalize(i.target).value in order)
  }

  lemma GrownTwice(fs: FileSystem, a: seq<Path>, b: seq<Path>, c: seq<Path>, p: Path)
    requires Grown(fs, a, b, p) && Grown(fs, b, c, p)
    ensures Grown(fs, a, c, p)
  {
    forall i | |a| <= i < |c| ensures Reaches(fs, p, c[i]) { if i < |b| { assert c[i] == b[i]; } }
  }

  lemma GrownBy(fs: FileSystem, a: seq<Path>, b: seq<Path>, p: Path)
    requires Grown(fs, a, b, p) && Reaches(fs, p, p)
    ensures Grown(fs, a, b + [p], p)
  {
    forall i | |a| <= i < |b + [p]| ensures Reaches(fs, p, (b + [p])[i]) { if i < |b| { assert (b + [p])[i] == b[i]; } }
  }

  lemma HasNumber(files: seq<LoadedModule>, loaded: map<Path, FileId>, id: nat)
    requires Indexed(files, loaded) && id < |files|
    ensures files[id].path in loaded && loaded[files[id].path] == id
  {}

  /** The first n imports are dealt with. */
  ghost predicate HandledTo(fs: FileSystem, order: seq<Path>, imports: seq<Import>, n: nat) {
    n <= |imports| && forall i {:trigger Handled(fs, order, imports[i])} :: 0 <= i < n ==> Handled(fs, order, imports[i])
  }

  lemma OneMoreHandled(fs: FileSystem, before: seq<Path>, order: seq<Path>, imports: seq<Import>, n: nat)
    requires before <= order && n < |imports| && HandledTo(fs, before, imports, n) && Handled(fs, order, imports[n])
    ensures HandledTo(fs, order, imports, n + 1)
  {
    forall i | 0 <= i < n ensures Handled(fs, order, imports[i]) { assert Handled(fs, before, imports[i]); }
  }

  lemma AllHandled(fs: FileSystem, order: seq<Path>, imports: seq<Import>)
    requires HandledTo(fs, order, imports, |imports|)
    ensures forall i :: i in imports ==> Handled(fs, order, i)
  {
    forall i | i in imports ensures Handled(fs, order, i) {
      var k :| 0 <= k < |imports| && imports[k] == i;
      assert Handled(fs, order, imports[k]);
    }
  }

  lemma Finish(fs: FileSystem, order: seq<Path>, p: Path)
    requires Finished(fs, order) && p !in order && fs.Content(p).Source?
    requires forall i :: i in fs.Imports(p) ==> Handled(fs, order, i)
    ensures Finished(fs, order + [p])
  {
    var all := order + [p];
    forall i | 0 <= i < |all| ensures Settled(fs, all, i) {
      if i < |order| {
        assert Settled(fs, order, i) && all[..i] == order[..i];
      } else {
        assert all[..i] == order;
        forall j | j in fs.Imports(p) ensures Fault(fs, j) == [] { assert Handled(fs, order, j); }
        forall b | Edge(fs, p, b) ensures b in order {
          var j :| j in fs.Imports(p) && Relative(j) && fs.Canonicalize(j.target) == Ok(b);
          assert Handled(fs, order, j);
        }
      }
    }
  }

  class ModuleLoader {
    const fs: FileSystem
    var files: seq<LoadedModule>
    var loaded: map<Path, FileId>
    var visiting: seq<Path>
    ghost var order: seq<Path>

    constructor (fs: FileSystem)
      ensures this.fs == fs && Valid() && files == [] && visiting == [] && order == []
    {
      this.fs := fs;
      files, loaded, visiting, order := [], map[], [], [];
    }

    ghost predicate Valid()
      reads this
    {
      && Indexed(files, loaded) && Finished(fs, order) && Split(loaded, visiting, order)
      && (visiting != [] ==> Walk(fs, visiting))
      && (forall f :: f in files ==> f.path in fs.files && f.imports == fs.Imports(f.path))
      && loaded.Keys <= fs.files.Keys
    }

    /** The next module to enter follows the last one being visited. */
    ghost predicate Follows(raw: RawPath)
      reads this
    {
      fs.Canonicalize(raw).Ok? && visiting != [] ==> Edge(fs, visiting[|visiting| - 1], fs.Canonicalize(raw).value)
    }

    method Load(raw: RawPath) returns (r: Result<FileId>)
      requires Valid() && Follows(raw)
      modifies this
      ensures Indexed(files, loaded)
      ensures match fs.Canonicalize(raw)
        case Err(e) => r == Err(e)
        case Ok(p) =>
          match r
          case Err(e) => Genuine(fs, old(visiting) + [p], e)
          case Ok(id) =>
            && p in order && p in loaded && loaded[p] == id && Grown(fs, old(order), order, p)
            && (p !in old(loaded) ==> id == |old(files)|)
      ensures r.Ok? ==> Valid() && visiting == old(visiting) && old(files) <= files
      decreases fs.files.Keys - loaded.Keys, 2
    {
      var canon := fs.Canonicalize(raw);
      if canon.Err? { return Err(canon.error); }
      var p := canon.value;
      ReachesSelf(fs, p);
      if p in visiting {
        assert (visiting + [p])[..|visiting|] == visiting;
        assert Walk(fs, [p]);
        Append(fs, visiting, [p]);
        return Err(Circular(visiting + [p]));
      }
      if p in loaded { return Ok(loaded[p]); }
      r := ReadFile(raw, p);
    }

    /** A module that was not met before: it is read, and its imports are loaded. */
    method ReadFile(raw: RawPath, p: Path) returns (r: Result<FileId>)
      requires Valid() && Follows(raw) && fs.Canonicalize(raw) == Ok(p) && p !in loaded
      modifies this
      ensures Indexed(files, loaded)
      ensures match r
        case Err(e) => Genuine(fs, old(visiting) + [p], e)
        case Ok(id) => p in order && p in loaded && loaded[p] == id == |old(files)| && Grown(fs, old(order), order, p)
      ensures r.Ok? ==> Valid() && visiting == old(visiting) && old(files) <= files
      decreases fs.files.Keys - loaded.Keys, 1
    {
      ReachesSelf(fs, p);
      match fs.Content(p)
      case Unreadable =>
        assert Wrong(fs, p, Io(p));
        return Err(Io(p));
      case Unparsable =>
        assert Wrong(fs, p, Syntax(p));
        return Err(Syntax(p));
      case Source(imports) =>
        Enter(raw, p);
        r := AddSource(p, imports);
    }

    /** The module takes the next number and stays on the stack while its imports are loaded. */
    method AddSource(p: Path, imports: seq<Import>) returns (r: Result<FileId>)
      requires Valid() && p !in loaded && fs.Content(p) == Source(imports) && Walk(fs, visiting + [p])
      modifies this
      ensures Indexed(files, loaded)
      ensures match r
        case Err(e) => Genuine(fs, old(visiting) + [p], e)
        case Ok(id) => p in order && p in loaded && loaded[p] == id == |old(files)| && Grown(fs, old(order), order, p)
      ensures r.Ok? ==> Valid() && visiting == old(visiting) && old(files) <= files
      decreases fs.files.Keys - loaded.Keys, 0
    {
      ReachesSelf(fs, p);
      var id := |files|;
      Push(p, imports);
      var done := LoadImports(p, imports);
      if done.Err? { return Err(done.error); }
      HasNumber(files, loaded, id);
      GrownBy(fs, old(order), order, p);
      Pop(p, old(visiting));
      return Ok(id);
    }

    method LoadImports(p: Path, imports: seq<Import>) returns (r: Result<()>)
      requires Valid() && visiting != [] && visiting[|visiting| - 1] == p && imports == fs.Imports(p)
      modifies this
      ensures Indexed(files, loaded)
      ensures r.Err? ==> Genuine(fs, old(visiting), r.error)
      ensures r.Ok? ==> Valid() && visiting == old(visiting) && old(files) <= files && Grown(fs, old(order), order, p)
      ensures r.Ok? ==> forall i :: i in imports ==> Handled(fs, order, i)
      decreases fs.files.Keys - loaded.Keys, 4
    {
      for j := 0 to |imports|
        invariant Valid() && visiting == old(visiting) && old(files) <= files && Grown(fs, old(order), order, p)
        invariant HandledTo(fs, order, imports, j)
      {
        ghost var before := order;
        var e := ResolveImport(imports[j], p);
        if e.Err? { return Err(e.error); }
        GrownTwice(fs, old(order), before, order, p);
        OneMoreHandled(fs, before, order, imports, j);
      }
      AllHandled(fs, order, imports);
      return Ok(());
    }

    method Push(p: Path, imports: seq<Import>)
      requires Valid() && p !in loaded && fs.Content(p) == Source(imports) && Walk(fs, visiting + [p])
      modifies this
      ensures Valid() && visiting == old(visiting) + [p] && order == old(order)
      ensures files == old(files) + [LoadedModule(|old(files)|, p, imports)] && loaded.Keys == old(loaded).Keys + {p}
    {
      files := files + [LoadedModule(|files|, p, imports)];
      loaded := loaded[p := |files| - 1];
      visiting := visiting + [p];
    }

    method Pop(p: Path, ghost below: seq<Path>)
      requires Valid() && visiting == below + [p] && (below != [] ==> Walk(fs, below)) && fs.Content(p).Source?
      requires forall i :: i in fs.Imports(p) ==> Handled(fs, order, i)
      modifies `visiting, `order
      ensures Valid() && visiting == below && order == old(order) + [p]
    {
      assert visiting[|below|] == p;
      Finish(fs, order, p);
      visiting := visiting[..|visiting| - 1];
      order := order + [p];
    }

    lemma Enter(raw: RawPath, p: Path)
      requires Valid() && Follows(raw) && fs.Canonicalize(raw) == Ok(p)
      ensures Walk(fs, visiting + [p])
    {
      assert Walk(fs, [p]);
      if visiting != [] { Append(fs, visiting, [p]); } else { assert visiting + [p] == [p]; }
    }

    method ResolveImport(i: Import, current: Path) returns (r: Result<()>)
      requires Valid() && visiting != [] && visiting[|visiting| - 1] == current && i in fs.Imports(current)
      modifies this
      ensures Indexed(files, loaded)
      ensures r.Err? ==> Genuine(fs, old(visiting), r.error)
      ensures r.Ok? ==> Valid() && visiting == old(visiting) && old(files) <= files
      ensures r.Ok? ==> Grown(fs, old(order), order, current) && Handled(fs, order, i)
      decreases fs.files.Keys - loaded.Keys, 3
    {
      ReachesSelf(fs, current);
      ghost var fault := Fault(fs, i);
      if fault != [] { assert fault == [fault[0]] && Wrong(fs, current, fault[0]); }
      match i
      case Foreign(lang, builds) =>
        if lang == "rust" {
          if !builds { return Err(Build(lang)); }
        } else if lang == "c++" {
          if !builds { return Err(Build(lang)); }
        }
        return Ok(());
      case Named(source, target) =>
        if source in BUILTIN { return Ok(()); }
        if Relative(i) {
          ghost var before := order;
          var id := Load(target);
          if id.Err? {
            if fs.Canonicalize(target).Ok? {
              Lower(fs, old(visiting), fs.Canonicalize(target).value, id.error);
            }
            return Err(id.error);
          }
          Deeper(fs, before, order, current, fs.Canonicalize(target).value);
          return Ok(());
        }
        return Err(Unsupported(source));
    }
  }
  // ----- a whole run on a fresh loader -----

  lemma {:induction false} ClosedUnderWalks(fs: FileSystem, order: seq<Path>, w: seq<Path>, i: nat)
    requires Finished(fs, order) && Walk(fs, w) && w[0] in order && i < |w|
    ensures exists k :: 0 <= k < |order| && order[k] == w[i] && (i > 0 ==> exists m :: k < m < |order| && order[m] == w[0])
  {
    if i > 0 {
      ClosedUnderWalks(fs, order, w, i - 1);
      var k :| 0 <= k < |order| && order[k] == w[i - 1] && (i > 1 ==> exists m :: k < m < |order| && order[m] == w[0]);
      assert Settled(fs, order, k) && Hop(fs, w, i - 1);
    }
  }

  /** The finished modules are exactly the reachable ones, and nothing is wrong with them. */
  lemma Exact(fs: FileSystem, order: seq<Path>, p: Path)
    requires Finished(fs, order) && p in order && Grown(fs, [], order, p)
    ensures forall q :: q in order <==> Reaches(fs, p, q)
    ensures !Cyclic(fs, p) && !Broken(fs, p)
  {
    forall q | Reaches(fs, p, q) ensures q in order {
      var w :| Connects(fs, w, p, q);
      ClosedUnderWalks(fs, order, w, |w| - 1);
    }
    if Cyclic(fs, p) {
      var w: seq<Path> :| Walk(fs, w) && |w| > 1 && w[0] == w[|w| - 1] && Reaches(fs, p, w[0]);
      ClosedUnderWalks(fs, order, w, |w| - 1);
      assert false;
    }
    forall q, e | Reaches(fs, p, q) ensures !Wrong(fs, q, e) {
      var k :| 0 <= k < |order| && order[k] == q;
      assert Settled(fs, order, k);
    }
  }

  /** A genuine error from the first module means that the program is broken or cyclic. */
  lemma ErrorsAreReal(fs: FileSystem, p: Path, e: Error)
    requires Genuine(fs, [p], e)
    ensures Cyclic(fs, p) || Broken(fs, p)
  {
    if !exists q :: Reaches(fs, p, q) && Wrong(fs, q, e) {
      var t, n := e.trail, |e.trail|;
      var j :| 0 <= j < n - 1 && t[..n - 1][j] == t[n - 1];
      assert t[0] == [p][0];
      TrailCycle(fs, t, j);
    }
  }

  lemma TrailCycle(fs: FileSystem, t: seq<Path>, j: nat)
    requires Walk(fs, t) && j < |t| - 1 && t[j] == t[|t| - 1]
    ensures Cyclic(fs, t[0])
  {
    Slice(fs, t, j, |t|);
    Slice(fs, t, 0, j + 1);
    TailAndLoop(fs, t[0..j + 1], t[j..|t|]);
  }

  lemma TailAndLoop(fs: FileSystem, v: seq<Path>, w: seq<Path>)
    requires Walk(fs, v) && Walk(fs, w) && |w| > 1 && w[0] == w[|w| - 1] == v[|v| - 1]
    ensures Cyclic(fs, v[0])
  {
    assert Connects(fs, v, v[0], w[0]);
  }

  /** Loading a program succeeds exactly when every reachable module is sound and none is on a
      cycle; then the files are the reachable modules, each once, the first one being the program. */
  method LoadProgram(fs: FileSystem, raw: RawPath) returns (loader: ModuleLoader, r: Result<FileId>)
    ensures r.Ok? <==> var c := fs.Canonicalize(raw); c.Ok? && !Cyclic(fs, c.value) && !Broken(fs, c.value)
    ensures r.Ok? ==> r.value == 0 && loader.visiting == [] && Indexed(loader.files, loader.loaded)
    ensures r.Ok? ==> forall q :: q in loader.loaded <==> Reaches(fs, fs.Canonicalize(raw).value, q)
    ensures r.Ok? ==> forall f :: f in loader.files ==> f.imports == fs.Imports(f.path)
    ensures r.Err? && fs.Canonicalize(raw).Ok? ==> Genuine(fs, [fs.Canonicalize(raw).value], r.error)
  {
    loader := new ModuleLoader(fs);
    r := loader.Load(raw);
    if fs.Canonicalize(raw).Ok? {
      var p := fs.Canonicalize(raw).value;
      assert [] + [p] == [p];
      if r.Ok? { Exact(fs, loader.order, p); } else { ErrorsAreReal(fs, p, r.error); }
    }
  }
}
