/** The import graph that a finite file system spans, and walks in it. */
module ImportGraph {

  type Path = string

  /** A path as written: everything up to the extension, and the extension. */
  datatype RawPath = RawPath(stem: string, ext: string)

  /** An import names a foreign language and whether its library builds, or a module: the text
      as written, and the path it stands for next to the importing file. */
  datatype Import = Foreign(lang: string, builds: bool) | Named(source: string, target: RawPath)

  datatype File = Unreadable | Unparsable | Source(imports: seq<Import>)

  datatype Result<+T> = Ok(value: T) | Err(error: Error)

  datatype Error = NotFound(raw: RawPath) | Circular(trail: seq<Path>) | Io(path: Path) | Syntax(path: Path)
    | Build(lang: string) | Unsupported(source: string)

  datatype FileSystem = FileSystem(canonical: map<RawPath, Path>, files: map<Path, File>) {
    /** A path that does not exist is tried again with the language's own extension. */
    function Canonicalize(raw: RawPath): (r: Result<Path>)
      ensures r.Err? ==> r.error == NotFound(raw)
    {
      if raw in canonical then Ok(canonical[raw])
      else if raw.(ext := "yk") in canonical then Ok(canonical[raw.(ext := "yk")])
      else Err(NotFound(raw))
    }

    function Content(p: Path): File { if p in files then files[p] else Unreadable }

    function Imports(p: Path): seq<Import> {
      match Content(p) case Source(imports) => imports case _ => []
    }
  }

  const BUILTIN := {"std", "io", "math", "time", "json", "datetime", "path", "base64", "regex", "net"}

  predicate Relative(i: Import) { i.Named? && i.source !in BUILTIN && i.source != [] && i.source[0] == '.' }

  /** One module imports another. */
  ghost predicate Edge(fs: FileSystem, a: Path, b: Path) {
    exists i :: i in fs.Imports(a) && Relative(i) && fs.Canonicalize(i.target) == Ok(b)
  }

  /** What is wrong with an import by itself. */
  function Fault(fs: FileSystem, i: Import): (e: seq<Error>)
    ensures |e| <= 1
  {
    match i
    case Foreign(lang, builds) => if (lang == "rust" || lang == "c++") && !builds then [Build(lang)] else []
    case Named(source, target) =>
      if source in BUILTIN then []
      else if Relative(i) then (if fs.Canonicalize(target).Err? then [NotFound(target)] else [])
      else [Unsupported(source)]
  }

  /** What is wrong with a module by itself. */
  ghost predicate Wrong(fs: FileSystem, p: Path, e: Error) {
    || (fs.Content(p).Unreadable? && e == Io(p))
    || (fs.Content(p).Unparsable? && e == Syntax(p))
    || exists i :: i in fs.Imports(p) && Fault(fs, i) == [e]
  }

  /** A file that cannot be read or parsed is wrong in that one way, a parsed one by its imports. */
  lemma WrongExactly(fs: FileSystem, p: Path, e: Error)
    ensures fs.Content(p) == Unreadable ==> (Wrong(fs, p, e) <==> e == Io(p))
    ensures fs.Content(p) == Unparsable ==> (Wrong(fs, p, e) <==> e == Syntax(p))
    ensures fs.Content(p) == Source([]) ==> !Wrong(fs, p, e)
  {}

  // ----- which imports are followed -----

  /** A path as written comes first, whatever else exists; only then its stem with the extension .yk,
      and nothing else is tried. */
  lemma AsWrittenFirst(fs: FileSystem, raw: RawPath, p: Path)
    ensures fs.(canonical := fs.canonical[raw := p]).Canonicalize(raw) == Ok(p)
    ensures raw !in fs.canonical ==> fs.(canonical := fs.canonical[RawPath(raw.stem, "yk") := p]).Canonicalize(raw) == Ok(p)
    ensures fs.Canonicalize(raw).Ok? ==> raw in fs.canonical || RawPath(raw.stem, "yk") in fs.canonical
  {}

  /** A module leads to exactly those modules that it names by a text that begins with a dot. */
  lemma EdgeExactly(fs: FileSystem, a: Path, b: Path)
    ensures Edge(fs, a, b) <==> exists rest, target :: Named("." + rest, target) in fs.Imports(a) && fs.Canonicalize(target) == Ok(b)
  {
    if Edge(fs, a, b) {
      var i :| i in fs.Imports(a) && Relative(i) && fs.Canonicalize(i.target) == Ok(b);
      assert i == Named("." + i.source[1..], i.target);
    }
    if exists rest, target :: Named("." + rest, target) in fs.Imports(a) && fs.Canonicalize(target) == Ok(b) {
      var rest, target :| Named("." + rest, target) in fs.Imports(a) && fs.Canonicalize(target) == Ok(b);
      Dotted(rest, target);
    }
  }

  lemma Dotted(rest: string, target: RawPath)
    ensures Relative(Named("." + rest, target))
  {
    var s := "." + rest;
    assert s[0] == '.';
    assert forall m :: m in BUILTIN ==> m[0] != '.';
  }

  /** The modules of the standard library are nothing to load. */
  lemma BuiltinsAreFree(fs: FileSystem, name: string, target: RawPath)
    requires name in ["std", "io", "math", "time", "json", "datetime", "path", "base64", "regex", "net"]
    ensures Fault(fs, Named(name, target)) == [] && !("." <= name)
  {
    assert name in BUILTIN && forall m :: m in BUILTIN ==> m[0] != '.';
  }

  /** A text that begins with a dot is at fault only if its path does not exist. */
  lemma DottedFault(fs: FileSystem, rest: string, target: RawPath)
    ensures Fault(fs, Named("." + rest, target)) == if fs.Canonicalize(target).Ok? then [] else [NotFound(target)]
  {
    Dotted(rest, target);
  }

  /** Any other text is refused. */
  lemma OthersUnsupported(fs: FileSystem, source: string, target: RawPath)
    requires !("." <= source)
    requires source !in ["std", "io", "math", "time", "json", "datetime", "path", "base64", "regex", "net"]
    ensures Fault(fs, Named(source, target)) == [Unsupported(source)]
  {
    assert source != [] ==> (source[0] == '.' <==> "." <= source);
  }

  /** A foreign import fails exactly if it is a Rust or C++ library that does not build. */
  lemma ForeignFault(fs: FileSystem, lang: string, builds: bool)
    ensures Fault(fs, Foreign(lang, builds)) == if !builds && lang in ["rust", "c++"] then [Build(lang)] else []
  {}

  // ----- walks -----

  ghost predicate Walk(fs: FileSystem, w: seq<Path>) {
    w != [] && forall i {:trigger Hop(fs, w, i)} :: 0 <= i < |w| - 1 ==> Hop(fs, w, i)
  }

  ghost predicate Hop(fs: FileSystem, w: seq<Path>, i: nat)
    requires i + 1 < |w|
  {
    Edge(fs, w[i], w[i + 1])
  }

  ghost predicate Connects(fs: FileSystem, w: seq<Path>, a: Path, b: Path) {
    Walk(fs, w) && w[0] == a && w[|w| - 1] == b
  }

  ghost predicate Reaches(fs: FileSystem, a: Path, b: Path) { exists w :: Connects(fs, w, a, b) }

  /** A reachable module lies on a cycle. */
  ghost predicate Cyclic(fs: FileSystem, a: Path) {
    exists w: seq<Path> :: Walk(fs, w) && |w| > 1 && w[0] == w[|w| - 1] && Reaches(fs, a, w[0])
  }

  /** Some reachable module is wrong by itself. */
  ghost predicate Broken(fs: FileSystem, a: Path) { exists p, e :: Reaches(fs, a, p) && Wrong(fs, p, e) }

  lemma ReachesSelf(fs: FileSystem, a: Path)
    ensures Reaches(fs, a, a)
  {
    assert Connects(fs, [a], a, a);
  }

  lemma Append(fs: FileSystem, v: seq<Path>, w: seq<Path>)
    requires Walk(fs, v) && Walk(fs, w) && Edge(fs, v[|v| - 1], w[0])
    ensures Walk(fs, v + w)
  {
    forall i | 0 <= i < |v + w| - 1 ensures Hop(fs, v + w, i) {
      if i < |v| - 1 { assert Hop(fs, v, i); }
      if i >= |v| { assert Hop(fs, w, i - |v|); }
    }
  }

  lemma ReachesStep(fs: FileSystem, a: Path, b: Path, c: Path)
    requires Edge(fs, a, b) && Reaches(fs, b, c)
    ensures Reaches(fs, a, c)
  {
    var w :| Connects(fs, w, b, c);
    assert Walk(fs, [a]);
    Append(fs, [a], w);
    assert Connects(fs, [a] + w, a, c);
  }

  lemma Slice(fs: FileSystem, w: seq<Path>, i: nat, j: nat)
    requires Walk(fs, w) && i < j <= |w|
    ensures Walk(fs, w[i..j])
  {
    forall k | 0 <= k < j - i - 1 ensures Hop(fs, w[i..j], k) { assert Hop(fs, w, i + k); }
  }
}
