/** The constructor of ProcessPackages.cs: every package file of a schema
    is cut into routines, each routine gets its calls and table references,
    each package resolves its internal calls as soon as it is read, and once
    all are read every package resolves its external calls against the
    registry of every routine of the schema, written schema.PACKAGE.name. */
module PackageProcessing {
  import opened Wrappers
  import opened Strings
  import opened Dictionaries
  import opened TextUtils
  import opened PkgFuncs
  import opened RoutineSegmenter
  import opened ReferenceExtractor
  import opened CallGraph

  /** A package file as the constructor reads it: its file name, without
      the folder, and its text. */
  datatype SourceFile = SourceFile(name: string, content: string)

  // ---------------------------------------------------------------- package names

  /** FileInfo.Extension on a file name: from the last '.' to the end, or
      empty when there is no '.'. A name ending in '.' has the extension
      ".". */
  function Extension(name: string): (ext: string)
    ensures |ext| <= |name| && ext == name[|name| - |ext|..]
    ensures ext == [] <==> '.' !in name
    ensures ext != [] ==> ext[0] == '.' && '.' !in ext[1..]
  {
    var d := LastIndexOf(name, '.');
    if d < 0 then [] else name[d..]
  }

  /** The package name: the file name with its extension replaced by nothing,
      trimmed and upper-cased. String.Replace throws on an empty string to
      replace, so a file name without a '.' fails. */
  function PackageName(fileName: string): (r: Result<string>)
    ensures r.Ok? <==> '.' in fileName
    ensures r.Err? ==> r.error == Argument("String.Replace")
    ensures r.Ok? ==> IsUpperCased(r.value)
  {
    var ext := Extension(fileName);
    if ext == [] then Err(Argument("String.Replace"))
    else Ok(ToUpper(Trim(Replace(fileName, ext, ""))))
  }

  /** A trailing '.' is the extension: it is removed, and the name before
      it is the package name. */
  lemma TrailingDotPackageName()
    ensures PackageName("pkg.") == Ok("PKG")
  {
    RemoveTrailingDot();
    hide Replace, Trim;
    assert LastIndexOf("pkg.", '.') == 3;
    assert Extension("pkg.") == ".";
    TrimIdentity("pkg");
    assert ToUpper("pkg") == "PKG";
  }

  lemma RemoveTrailingDot()
    ensures Replace("pkg.", ".", "") == "pkg"
  {
    assert Replace(".", ".", "") == "" by {
      assert StartsWith(".", ".") && "."[1..] == "";
    }
    assert Replace("g.", ".", "") == "g" by {
      assert !StartsWith("g.", ".") && "g."[1..] == ".";
    }
    assert Replace("kg.", ".", "") == "kg" by {
      assert !StartsWith("kg.", ".") && "kg."[1..] == "g.";
    }
    assert !StartsWith("pkg.", ".") && "pkg."[1..] == "kg.";
  }

  /** A file name without a '.' has no extension, and Replace("") throws. */
  lemma NoDotPackageName()
    ensures PackageName("pkg") == Err(Argument("String.Replace"))
  {
    assert '.' !in "pkg";
  }

  // ---------------------------------------------------------------- one package

  /** The routine the inner loop builds from one extracted entry. */
  function RoutineOf(e: Entry<string>, schema: string): (r: Routine)
    requires Contains(e.value, "BEGIN")
    ensures r.name == e.key && r.internalCalls == [] && r.externalCalls == []
  {
    var tables := TableReferences(e.value, schema);
    Routine(e.key, RemoveEmptyLines(e.value), Calls(e.value, schema).value, [], [],
            tables.selects, tables.inserts, tables.updates, tables.deletes)
  }

  /** Every entry of an extraction contains BEGIN. */
  predicate HasBodies(d: seq<Entry<string>>) {
    forall k :: 0 <= k < |d| ==> Contains(d[k].value, "BEGIN")
  }

  /** The routines of a package, in extraction order. */
  function RoutinesOf(d: seq<Entry<string>>, schema: string): (rs: seq<Routine>)
    requires HasBodies(d)
    ensures |rs| == |d|
  {
    if |d| == 0 then []
    else RoutinesOf(d[..|d| - 1], schema) + [RoutineOf(d[|d| - 1], schema)]
  }

  /** Routine k of a package is built from entry k. */
  lemma {:induction false} RoutinesOfAt(d: seq<Entry<string>>, schema: string)
    requires HasBodies(d)
    ensures forall k :: 0 <= k < |d| ==> RoutinesOf(d, schema)[k] == RoutineOf(d[k], schema)
  {
    hide RoutineOf;
    if |d| > 0 {
      RoutinesOfAt(d[..|d| - 1], schema);
    }
  }

  /** The registry entry of one routine: schema.PACKAGE.name. */
  function Qualified(schema: string, packageName: string, name: string): string {
    schema + "." + packageName + "." + name
  }

  /** The registry entries of one package, one per routine name. */
  function QualifiedNames(schema: string, packageName: string, names: seq<string>): (ns: seq<string>)
    ensures |ns| == |names| && forall k :: 0 <= k < |names| ==> ns[k] == Qualified(schema, packageName, names[k])
  {
    seq(|names|, k requires 0 <= k < |names| => Qualified(schema, packageName, names[k]))
  }

  // ---------------------------------------------------------------- the whole schema

  /** A package file as values: its name and its routines. */
  datatype FileValue = FileValue(name: string, routines: seq<Routine>)

  /** The state after the first loop: the package files read so far, each
      with its internal calls resolved, and the registry. */
  datatype Stage = Stage(files: seq<FileValue>, registry: seq<string>)

  /** What reading one package file yields: the package with its internal
      calls resolved, and its registry entries. */
  datatype Package = Package(file: FileValue, entries: seq<string>)

  /** The body of the first loop on one package file. */
  function PackageOf(src: SourceFile, schema: string): Result<Package> {
    match PackageName(src.name)
    case Err(e) => Err(e)
    case Ok(packageName) =>
      match Routines(src.content)
      case Err(e) => Err(e)
      case Ok(d) =>
        RoutinesWellFormed(src.content);
        Ok(Package(FileValue(packageName, InternalPass(RoutinesOf(d, schema))),
                   QualifiedNames(schema, packageName, Keys(d))))
  }

  /** One package file read by the first loop, unless an earlier one failed. */
  function Step(prior: Result<Stage>, src: SourceFile, schema: string): Result<Stage> {
    if prior.Err? then prior
    else
      match PackageOf(src, schema)
      case Err(e) => Err(e)
      case Ok(p) => Ok(Stage(prior.value.files + [p.file], prior.value.registry + p.entries))
  }

  /** The first loop over the package files, in the order they are listed;
      the first failure ends it. */
  function Scan(sources: seq<SourceFile>, schema: string): Result<Stage> {
    if |sources| == 0 then Ok(Stage([], []))
    else Step(Scan(sources[..|sources| - 1], schema), sources[|sources| - 1], schema)
  }

  /** The external pass of every package file against one registry. */
  function ExternalPassAll(files: seq<FileValue>, registry: seq<string>): (fs: seq<FileValue>)
    ensures |fs| == |files|
    ensures forall j :: 0 <= j < |files| ==> fs[j] == FileValue(files[j].name, ExternalPass(files[j].routines, registry))
  {
    seq(|files|, j requires 0 <= j < |files| => FileValue(files[j].name, ExternalPass(files[j].routines, registry)))
  }

  /** What the constructor leaves in its package files. */
  function Processed(sources: seq<SourceFile>, schema: string): Result<seq<FileValue>> {
    match Scan(sources, schema)
    case Err(e) => Err(e)
    case Ok(st) => Ok(ExternalPassAll(st.files, st.registry))
  }

  // ---------------------------------------------------------------- the methods

  /** A package file's routines, as values. */
  function FileValueOf(f: PkgFile): FileValue
    reads f.funcs
  {
    FileValue(f.name, Values(f.funcs))
  }

  /** The body of the constructor's inner loop: the calls and the table
      references of one extracted routine, stored in a new PkgFunc. */
  method NewPkgFunc(func: Entry<string>, schema: string) returns (pkgFunc: PkgFunc)
    requires Contains(func.value, "BEGIN")
    ensures fresh(pkgFunc)
    ensures pkgFunc.Value() == RoutineOf(func, schema)
  {
    var calls := ExtractCalls(func.value, schema);
    var tables := TableReferences(func.value, schema);
    pkgFunc := new PkgFunc(func.key, func.value, tables.selects, tables.inserts,
                           tables.updates, tables.deletes, calls.value);
  }

  /** The inner loop of the constructor: one new PkgFunc per extracted
      routine. */
  method BuildFuncs(d: seq<Entry<string>>, schema: string) returns (funcs: seq<PkgFunc>)
    requires HasBodies(d)
    ensures forall k :: 0 <= k < |funcs| ==> fresh(funcs[k])
    ensures Distinct(funcs)
    ensures Values(funcs) == RoutinesOf(d, schema)
  {
    hide RoutineOf;
    funcs := [];
    for i := 0 to |d|
      invariant |funcs| == i
      invariant forall k :: 0 <= k < i ==> fresh(funcs[k])
      invariant Distinct(funcs)
      invariant Values(funcs) == RoutinesOf(d[..i], schema)
    {
      ghost var prev := Values(funcs);
      var pkgFunc := NewPkgFunc(d[i], schema);
      assert Values(funcs) == prev;
      ValuesAppend(funcs, pkgFunc);
      assert d[..i + 1][..i] == d[..i];
      assert RoutinesOf(d[..i + 1], schema) == RoutinesOf(d[..i], schema) + [RoutineOf(d[i], schema)];
      funcs := funcs + [pkgFunc];
    }
    assert d[..|d|] == d;
  }

  /** The objects of different package files are different. */
  predicate Separate(files: seq<PkgFile>) {
    forall j, m :: 0 <= j < m < |files| ==> Objects(files[j]) !! Objects(files[m])
  }

  /** The objects of all package files. */
  function AllObjects(files: seq<PkgFile>): set<object> {
    set j, k | 0 <= j < |files| && 0 <= k < |files[j].funcs| :: files[j].funcs[k]
  }

  /** The body of the first loop: one package file cut into routines,
      which become new PkgFunc objects with their internal calls resolved. */
  method ReadPackage(src: SourceFile, schema: string) returns (r: Result<PkgFile>, entries: seq<string>)
    ensures r.Ok? <==> PackageOf(src, schema).Ok?
    ensures r.Err? ==> PackageOf(src, schema) == Err(r.error)
    ensures r.Ok? ==> FileValueOf(r.value) == PackageOf(src, schema).value.file
    ensures r.Ok? ==> entries == PackageOf(src, schema).value.entries
    ensures r.Ok? ==> Distinct(r.value.funcs) && fresh(Objects(r.value))
  {
    hide RoutineOf, RoutinesOf, Routines, InternalPass, Pass;
    var packageName := PackageName(src.name);
    if packageName.Err? {
      return Err(packageName.error), [];
    }
    var proceduresAndFunctions := ExtractProceduresAndFunctions(src.content);
    if proceduresAndFunctions.Err? {
      return Err(proceduresAndFunctions.error), [];
    }
    RoutinesWellFormed(src.content);
    var funcs := BuildFuncs(proceduresAndFunctions.value, schema);
    entries := QualifiedNames(schema, packageName.value, Keys(proceduresAndFunctions.value));
    var pkgFile := PkgFile(packageName.value, funcs);
    SetInternalCalls(pkgFile);
    r := Ok(pkgFile);
  }

  /** The first loop of the constructor: every package file in turn, its
      routines' names joining the registry. */
  method ReadPackages(sources: seq<SourceFile>, schema: string)
    returns (r: Result<seq<PkgFile>>, externalCalls: seq<string>)
    ensures r.Ok? <==> Scan(sources, schema).Ok?
    ensures r.Err? ==> Scan(sources, schema) == Err(r.error)
    ensures r.Ok? ==> Scan(sources, schema).value.registry == externalCalls
    ensures r.Ok? ==> |r.value| == |Scan(sources, schema).value.files|
    ensures r.Ok? ==> forall j :: 0 <= j < |r.value| ==> FileValueOf(r.value[j]) == Scan(sources, schema).value.files[j]
    ensures r.Ok? ==> (forall j :: 0 <= j < |r.value| ==> Distinct(r.value[j].funcs)) && Separate(r.value)
    ensures r.Ok? ==> fresh(AllObjects(r.value))
  {
    hide PackageOf;
    var pkgFiles: seq<PkgFile> := [];
    externalCalls := [];
    ghost var st := Stage([], []);
    ghost var vals: seq<FileValue> := [];
    ghost var seen: set<object> := {};
    var i := 0;
    while i < |sources|
      invariant 0 <= i <= |sources|
      invariant Scan(sources[..i], schema) == Ok(st)
      invariant st.registry == externalCalls && st.files == vals
      invariant |vals| == |pkgFiles|
      invariant forall j :: 0 <= j < |pkgFiles| ==> FileValueOf(pkgFiles[j]) == vals[j]
      invariant forall j :: 0 <= j < |pkgFiles| ==> Distinct(pkgFiles[j].funcs) && Objects(pkgFiles[j]) <= seen
      invariant Separate(pkgFiles)
      invariant fresh(seen)
    {
      label before:
      ScanStep(sources, schema, i);
      var pkgFile, entries := ReadPackage(sources[i], schema);
      if pkgFile.Err? {
        ScanPrefixError(sources, schema, i + 1);
        return Err(pkgFile.error), externalCalls;
      }
      forall m | 0 <= m < |pkgFiles|
        ensures FileValueOf(pkgFiles[m]) == old@before(FileValueOf(pkgFiles[m]))
      {
        forall k | 0 <= k < |pkgFiles[m].funcs|
          ensures pkgFiles[m].funcs[k].Value() == old@before(pkgFiles[m].funcs[k].Value())
        {
          assert pkgFiles[m].funcs[k] in Objects(pkgFiles[m]);
        }
      }
      assert Objects(pkgFile.value) !! seen;
      pkgFiles := pkgFiles + [pkgFile.value];
      externalCalls := externalCalls + entries;
      st := Step(Ok(st), sources[i], schema).value;
      vals := vals + [FileValueOf(pkgFile.value)];
      seen := seen + Objects(pkgFile.value);
      i := i + 1;
    }
    assert sources[..i] == sources;
    forall o | o in AllObjects(pkgFiles) ensures o in seen {
      var j, k :| 0 <= j < |pkgFiles| && 0 <= k < |pkgFiles[j].funcs| && o == pkgFiles[j].funcs[k];
      assert o in Objects(pkgFiles[j]);
    }
    r := Ok(pkgFiles);
  }

  /** PkgFiles.ForEach(SetExternalCalls): the external pass of every package
      file against the registry. */
  method SetAllExternalCalls(pkgFiles: seq<PkgFile>, externalCalls: seq<string>)
    requires forall j :: 0 <= j < |pkgFiles| ==> Distinct(pkgFiles[j].funcs)
    requires Separate(pkgFiles)
    modifies AllObjects(pkgFiles)
    ensures forall j :: 0 <= j < |pkgFiles| ==>
      Values(pkgFiles[j].funcs) == ExternalPass(old(Values(pkgFiles[j].funcs)), externalCalls)
  {
    hide ExternalPass, Pass;
    var j := 0;
    while j < |pkgFiles|
      invariant 0 <= j <= |pkgFiles|
      invariant forall m :: 0 <= m < j ==>
        Values(pkgFiles[m].funcs) == ExternalPass(old(Values(pkgFiles[m].funcs)), externalCalls)
      invariant forall m :: j <= m < |pkgFiles| ==> Values(pkgFiles[m].funcs) == old(Values(pkgFiles[m].funcs))
    {
      assert forall m, k :: 0 <= m < |pkgFiles| && 0 <= k < |pkgFiles[m].funcs| ==> allocated(pkgFiles[m].funcs[k]);
      label before:
      assert Objects(pkgFiles[j]) <= AllObjects(pkgFiles);
      SetExternalCalls(pkgFiles[j], externalCalls);
      forall m | 0 <= m < |pkgFiles| && m != j
        ensures Values(pkgFiles[m].funcs) == old@before(Values(pkgFiles[m].funcs))
      {
        assert Objects(pkgFiles[m]) !! Objects(pkgFiles[j]);
        forall k | 0 <= k < |pkgFiles[m].funcs|
          ensures pkgFiles[m].funcs[k].Value() == old@before(pkgFiles[m].funcs[k].Value())
        {
          assert pkgFiles[m].funcs[k] in Objects(pkgFiles[m]);
        }
      }
      j := j + 1;
    }
  }

  /** The constructor without its I/O: read every package file, resolving
      its internal calls, then resolve the external calls of every package. */
  method ProcessPackages(sources: seq<SourceFile>, schema: string) returns (r: Result<seq<PkgFile>>)
    ensures r.Ok? <==> Processed(sources, schema).Ok?
    ensures r.Err? ==> Processed(sources, schema) == Err(r.error)
    ensures r.Ok? ==> |r.value| == |Processed(sources, schema).value|
    ensures r.Ok? ==> forall j :: 0 <= j < |r.value| ==> FileValueOf(r.value[j]) == Processed(sources, schema).value[j]
  {
    var pkgFiles, externalCalls := ReadPackages(sources, schema);
    if pkgFiles.Err? {
      return Err(pkgFiles.error);
    }
    SetAllExternalCalls(pkgFiles.value, externalCalls);
    r := Ok(pkgFiles.value);
  }

  /** One more package file through the first loop. */
  lemma ScanStep(sources: seq<SourceFile>, schema: string, i: nat)
    requires i < |sources|
    ensures Scan(sources[..i + 1], schema) == Step(Scan(sources[..i], schema), sources[i], schema)
  {
    assert sources[..i + 1][..i] == sources[..i];
  }

  /** A failure ends the first loop with that failure. */
  lemma {:induction false} ScanPrefixError(sources: seq<SourceFile>, schema: string, n: nat)
    requires n <= |sources| && Scan(sources[..n], schema).Err?
    ensures Scan(sources, schema) == Scan(sources[..n], schema)
    decreases |sources| - n
  {
    if n == |sources| {
      assert sources[..n] == sources;
    } else {
      ScanStep(sources, schema, n);
      ScanPrefixError(sources, schema, n + 1);
    }
  }

  // ---------------------------------------------------------------- properties

  /** Registry entries of one package are as distinct as its routine names,
      and each gives its routine name back after `schema.PACKAGE.`. */
  lemma {:induction false} QualifiedNamesReadBack(schema: string, packageName: string, names: seq<string>)
    ensures var ns := QualifiedNames(schema, packageName, names);
      && |ns| == |names|
      && (forall k :: 0 <= k < |names| ==>
            |ns[k]| >= |schema| + |packageName| + 2 && ns[k][|schema| + |packageName| + 2..] == names[k])
      && (forall i, j :: 0 <= i < |names| && 0 <= j < |names| ==> (ns[i] == ns[j] <==> names[i] == names[j]))
  {
    var ns := QualifiedNames(schema, packageName, names);
    var n := |schema| + |packageName| + 2;
    var prefix := schema + "." + packageName + ".";
    assert |prefix| == n;
    forall k | 0 <= k < |names| ensures |ns[k]| >= n && ns[k][n..] == names[k] {
      assert ns[k] == prefix + names[k];
    }
  }

  /** The external pass changes only external calls: every file keeps its
      name and its routines, and each routine its name, script, calls, table
      references and internal calls. */
  lemma ExternalPassAllKeeps(files: seq<FileValue>, registry: seq<string>)
    ensures var fs := ExternalPassAll(files, registry);
      && |fs| == |files|
      && forall j :: 0 <= j < |files| ==>
        && fs[j].name == files[j].name
        && |fs[j].routines| == |files[j].routines|
        && forall k :: 0 <= k < |files[j].routines| ==>
          && fs[j].routines[k].name == files[j].routines[k].name
          && fs[j].routines[k].script == files[j].routines[k].script
          && fs[j].routines[k].calls == files[j].routines[k].calls
          && fs[j].routines[k].internalCalls == files[j].routines[k].internalCalls
          && fs[j].routines[k].tablesInSelects == files[j].routines[k].tablesInSelects
          && fs[j].routines[k].tablesInInserts == files[j].routines[k].tablesInInserts
          && fs[j].routines[k].tablesInUpdates == files[j].routines[k].tablesInUpdates
          && fs[j].routines[k].tablesInDeletes == files[j].routines[k].tablesInDeletes
  {
    forall j | 0 <= j < |files| {
      PassSetsOneList(files[j].routines, External(registry));
    }
  }

  /** A package file yields a package exactly when its name has a '.' and
      its routines extract without a name collision. The package is named
      after the file, holds the extracted routines in extraction order, its
      registry entries are schema.PACKAGE.name for each of them, and no
      external call is set yet. */
  lemma PackageOfCases(src: SourceFile, schema: string)
    ensures PackageOf(src, schema).Ok? <==> '.' in src.name && Routines(src.content).Ok?
    ensures '.' !in src.name ==> PackageOf(src, schema) == Err(Argument("String.Replace"))
    ensures PackageOf(src, schema).Ok? ==>
      var p := PackageOf(src, schema).value;
      && p.file.name == PackageName(src.name).value
      && Names(p.file.routines) == Keys(Routines(src.content).value)
      && p.entries == QualifiedNames(schema, p.file.name, Names(p.file.routines))
      && forall k :: 0 <= k < |p.file.routines| ==> p.file.routines[k].externalCalls == []
  {
    if PackageOf(src, schema).Ok? {
      var d := Routines(src.content).value;
      RoutinesWellFormed(src.content);
      var rs := RoutinesOf(d, schema);
      RoutinesOfAt(d, schema);
      PassSetsOneList(rs, Internal(Names(rs)));
      var p := PackageOf(src, schema).value;
      assert p.file.routines == InternalPass(rs);
      assert Names(p.file.routines) == Keys(d);
    }
  }

  /** The routines a package file yields have no external call set yet and
      none of them has an internal call before its package's pass. */
  lemma PackageRoutinesUnresolved(src: SourceFile, schema: string)
    requires PackageOf(src, schema).Ok?
    ensures Routines(src.content).Ok?
    ensures var d := Routines(src.content).value;
      && HasBodies(d)
      && PackageOf(src, schema).value.file.routines == InternalPass(RoutinesOf(d, schema))
      && forall k :: 0 <= k < |d| ==> RoutinesOf(d, schema)[k].internalCalls == [] && RoutinesOf(d, schema)[k].externalCalls == []
  {
    hide Pass, InternalPass;
    var d := Routines(src.content).value;
    RoutinesWellFormed(src.content);
    RoutinesOfAt(d, schema);
  }

  /** After both passes, every internal call of a routine is one of its own
      calls naming a routine of the same package, up to case. */
  lemma PackageInternalCalls(src: SourceFile, schema: string, registry: seq<string>)
    requires PackageOf(src, schema).Ok?
    ensures var rs := ExternalPass(PackageOf(src, schema).value.file.routines, registry);
      forall k :: 0 <= k < |rs| ==> forall c :: c in rs[k].internalCalls ==> c in rs[k].calls && CiIn(c, Names(rs))
  {
    hide RoutineOf, Routines, PackageOf, Pass;
    PackageRoutinesUnresolved(src, schema);
    var before := RoutinesOf(Routines(src.content).value, schema);
    InternalCallsResolved(before);
    PassSetsOneList(before, Internal(Names(before)));
    var internal := InternalPass(before);
    PassSetsOneList(internal, External(registry));
    var rs := ExternalPass(internal, registry);
    assert PackageOf(src, schema).value.file.routines == internal;
    assert Names(rs) == Names(before);
    forall k | 0 <= k < |rs|
      ensures forall c :: c in rs[k].internalCalls ==> c in rs[k].calls && CiIn(c, Names(rs))
    {
      assert rs[k].internalCalls == internal[k].internalCalls;
      assert rs[k].calls == internal[k].calls == before[k].calls;
    }
  }

  /** After both passes, every external call of a routine is a registry
      entry naming one of its calls, up to case. */
  lemma PackageExternalCalls(src: SourceFile, schema: string, registry: seq<string>)
    requires PackageOf(src, schema).Ok?
    ensures var rs := ExternalPass(PackageOf(src, schema).value.file.routines, registry);
      forall k :: 0 <= k < |rs| ==> forall c :: c in rs[k].externalCalls ==> c in registry && CiIn(c, rs[k].calls)
  {
    hide RoutineOf, Routines, PackageOf, Pass;
    PackageRoutinesUnresolved(src, schema);
    var before := RoutinesOf(Routines(src.content).value, schema);
    PassSetsOneList(before, Internal(Names(before)));
    var internal := InternalPass(before);
    ExternalCallsResolved(internal, registry);
    PassSetsOneList(internal, External(registry));
    assert PackageOf(src, schema).value.file.routines == internal;
  }

  /** The first loop succeeds exactly when every package file yields a
      package; it then keeps one package per file, in order, and the
      registry holds the entries of every package. */
  lemma {:induction false} ScanFiles(sources: seq<SourceFile>, schema: string)
    ensures Scan(sources, schema).Ok? <==> forall i :: 0 <= i < |sources| ==> PackageOf(sources[i], schema).Ok?
    ensures Scan(sources, schema).Ok? ==>
      && |Scan(sources, schema).value.files| == |sources|
      && (forall i :: 0 <= i < |sources| ==> Scan(sources, schema).value.files[i] == PackageOf(sources[i], schema).value.file)
      && forall x :: x in Scan(sources, schema).value.registry <==>
           exists i :: 0 <= i < |sources| && x in PackageOf(sources[i], schema).value.entries
  {
    hide PackageOf;
    if |sources| > 0 {
      var n := |sources| - 1;
      var init := sources[..n];
      ScanFiles(init, schema);
      assert forall i :: 0 <= i < n ==> init[i] == sources[i];
      if Scan(sources, schema).Ok? {
        var st := Scan(init, schema).value;
        var p := PackageOf(sources[n], schema).value;
        forall x | x in Scan(sources, schema).value.registry
          ensures exists i :: 0 <= i < |sources| && x in PackageOf(sources[i], schema).value.entries
        {
          if x in st.registry {
            var i :| 0 <= i < n && x in PackageOf(init[i], schema).value.entries;
          } else {
            assert x in PackageOf(sources[n], schema).value.entries;
          }
        }
      }
    }
  }

  /** The registry lists every routine of every package, as
      schema.PACKAGE.name, and nothing else. */
  lemma RegistryListsEveryRoutine(sources: seq<SourceFile>, schema: string)
    requires Processed(sources, schema).Ok?
    ensures var ps := Processed(sources, schema).value;
      forall x :: x in Scan(sources, schema).value.registry <==>
        exists j, k :: 0 <= j < |ps| && 0 <= k < |ps[j].routines| && x == Qualified(schema, ps[j].name, ps[j].routines[k].name)
  {
    var st := Scan(sources, schema).value;
    var ps := Processed(sources, schema).value;
    ScanFiles(sources, schema);
    forall j | 0 <= j < |sources|
      ensures Names(ps[j].routines) == Names(st.files[j].routines)
      ensures PackageOf(sources[j], schema).value.entries == QualifiedNames(schema, ps[j].name, Names(ps[j].routines))
    {
      PackageOfCases(sources[j], schema);
      PassSetsOneList(st.files[j].routines, External(st.registry));
    }
    forall x | x in st.registry
      ensures exists j, k :: 0 <= j < |ps| && 0 <= k < |ps[j].routines| && x == Qualified(schema, ps[j].name, ps[j].routines[k].name)
    {
      var j :| 0 <= j < |sources| && x in PackageOf(sources[j], schema).value.entries;
      var k :| 0 <= k < |ps[j].routines| && x == QualifiedNames(schema, ps[j].name, Names(ps[j].routines))[k];
      assert x == Qualified(schema, ps[j].name, ps[j].routines[k].name);
    }
    forall x, j, k | 0 <= j < |ps| && 0 <= k < |ps[j].routines| && x == Qualified(schema, ps[j].name, ps[j].routines[k].name)
      ensures x in st.registry
    {
      assert x == QualifiedNames(schema, ps[j].name, Names(ps[j].routines))[k];
      assert x in PackageOf(sources[j], schema).value.entries;
    }
  }

  /** What the constructor leaves behind: every internal call of a routine
      is one of its calls naming a routine of its own package, and every
      external call is one of its calls, up to case, written as
      schema.PACKAGE.name of some routine of some package. */
  lemma ProcessedCallsResolved(sources: seq<SourceFile>, schema: string)
    requires Processed(sources, schema).Ok?
    ensures var ps := Processed(sources, schema).value;
      forall j, k :: 0 <= j < |ps| && 0 <= k < |ps[j].routines| ==>
        forall c :: c in ps[j].routines[k].internalCalls ==> c in ps[j].routines[k].calls && CiIn(c, Names(ps[j].routines))
    ensures var ps := Processed(sources, schema).value;
      forall j, k :: 0 <= j < |ps| && 0 <= k < |ps[j].routines| ==>
        forall c :: c in ps[j].routines[k].externalCalls ==>
        && CiIn(c, ps[j].routines[k].calls)
        && exists j', k' :: 0 <= j' < |ps| && 0 <= k' < |ps[j'].routines| && c == Qualified(schema, ps[j'].name, ps[j'].routines[k'].name)
  {
    hide PackageOf, ExternalPass, Pass;
    var st := Scan(sources, schema).value;
    var ps := Processed(sources, schema).value;
    ScanFiles(sources, schema);
    RegistryListsEveryRoutine(sources, schema);
    forall j | 0 <= j < |ps|
      ensures forall k :: 0 <= k < |ps[j].routines| ==>
        forall c :: c in ps[j].routines[k].internalCalls ==> c in ps[j].routines[k].calls && CiIn(c, Names(ps[j].routines))
      ensures forall k :: 0 <= k < |ps[j].routines| ==>
        forall c :: c in ps[j].routines[k].externalCalls ==> c in st.registry && CiIn(c, ps[j].routines[k].calls)
    {
      assert ps[j].routines == ExternalPass(PackageOf(sources[j], schema).value.file.routines, st.registry);
      PackageInternalCalls(sources[j], schema, st.registry);
      PackageExternalCalls(sources[j], schema, st.registry);
    }
  }
}
