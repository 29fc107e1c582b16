/** What a request asks of the project directory, and what a container's directory owes to its past. */
module ProjectRequests {
  import opened FilesRules
  import opened Paths
  import opened ProjectSetup
  import opened SetupOrders
  import opened Wrappers

  datatype CrateType = Binary | Library

  datatype Code = Single(text: Content) | Multiple(codeFiles: seq<(string, Content)>)

  /** `rewrite` is what the request makes of the parsed Cargo.toml. */
  datatype Request = Request(crateType: CrateType, code: Code, rewrite: Content -> Content)

  /** The files that decide what is built. */
  datatype KeyFile = BuildRs | LibRs | MainRs | CargoToml

  /** The files of an earlier request that a new one must not find. */
  const CANDIDATES := {BuildRs, LibRs, MainRs}

  function KeyParts(k: KeyFile): (parts: Parts)
    ensures parts != []
  {
    match k
    case BuildRs => ["build.rs"]
    case LibRs => ["src", "lib.rs"]
    case MainRs => ["src", "main.rs"]
    case CargoToml => ["Cargo.toml"]
  }

  lemma KeyPartsHaveNoSlash(k: KeyFile)
    ensures NoSlash(KeyParts(k))
  {
  }

  /** `build.rs`, `src/lib.rs`, `src/main.rs`, `Cargo.toml`. */
  function NameOf(k: KeyFile): (name: string)
    ensures Split(name) == KeyParts(k)
  {
    KeyPartsHaveNoSlash(k);
    SplitJoin(KeyParts(k));
    Join(KeyParts(k))
  }

  /** The place a component leads to; empty components and single dots lead nowhere else. */
  function Walk(base: Location, parts: Parts): Location
    decreases |parts|
  {
    if parts == [] then base
    else if parts[0] == "" || parts[0] == "." then Walk(base, parts[1..])
    else if parts[0] == ".." then Walk(if base == [] then [] else base[..|base| - 1], parts[1..])
    else Walk(base + [parts[0]], parts[1..])
  }

  /** An absolute name replaces the project directory. */
  function Resolve(project: Location, name: string): Location {
    Walk(if name != "" && name[0] == '/' then [] else project, Split(name))
  }

  function PrimaryPath(crateType: CrateType): string {
    NameOf(if crateType.Binary? then MainRs else LibRs)
  }

  function FilesOf(r: Request): seq<(string, Content)> {
    match r.code
    case Single(text) => [(PrimaryPath(r.crateType), text)]
    case Multiple(files) => files
  }

  function NamesIn(files: seq<(string, Content)>): set<string> {
    set f | f in files :: f.0
  }

  function NamesOf(r: Request): set<string> {
    NamesIn(FilesOf(r))
  }

  function NotNamed(names: set<string>): set<KeyFile> {
    set k | k in CANDIDATES && NameOf(k) !in names
  }

  function NamesOfKeys(keys: set<KeyFile>): set<string> {
    set k | k in keys :: NameOf(k)
  }

  lemma NamesSnoc(files: seq<(string, Content)>, i: nat)
    requires i < |files|
    ensures NamesIn(files[..i + 1]) == NamesIn(files[..i]) + {files[i].0}
  {
  }

  method RemoveNames(candidates: set<string>, files: seq<(string, Content)>) returns (names: set<string>)
    ensures names == candidates - NamesIn(files)
  {
    names := candidates;
    for i := 0 to |files|
      invariant names == candidates - NamesIn(files[..i])
    {
      NamesSnoc(files, i);
      names := names - {files[i].0};
    }
    assert files[..|files|] == files;
  }

  lemma OutdatedNames(names: set<string>)
    ensures NamesOfKeys(CANDIDATES) - names == NamesOfKeys(NotNamed(names))
  {
  }

  /** The candidates, less the names of the request's own files. */
  method DeleteRequests(r: Request) returns (names: set<string>)
    ensures names == NamesOfKeys(NotNamed(NamesOf(r)))
  {
    names := RemoveNames(NamesOfKeys(CANDIDATES), FilesOf(r));
    OutdatedNames(NamesOf(r));
  }

  /** Cargo.toml is rewritten from the one read when the container started; the other key files are deleted. */
  function KeyOp(project: Location, original: Content, r: Request, k: KeyFile): Op {
    var path := Resolve(project, NameOf(k));
    if k.CargoToml? then Write(path, r.rewrite(original)) else Delete(path)
  }

  predicate Touches(r: Request, k: KeyFile) {
    k.CargoToml? || k in NotNamed(NamesOf(r))
  }

  function KeyOps(project: Location, original: Content, r: Request): set<Op> {
    set k: KeyFile | Touches(r, k) :: KeyOp(project, original, r, k)
  }

  function WritesOf(project: Location, files: seq<(string, Content)>): (ops: seq<Op>)
    ensures |ops| == |files|
    ensures forall i :: 0 <= i < |files| ==> ops[i] == Write(Resolve(project, files[i].0), files[i].1)
  {
    seq(|files|, i requires 0 <= i < |files| => Write(Resolve(project, files[i].0), files[i].1))
  }

  /** Everything that a request does at once: its deletes, its writes, and the new Cargo.toml. */
  function SetupOps(project: Location, original: Content, r: Request): multiset<Op> {
    multiset(KeyOps(project, original, r)) + multiset(WritesOf(project, FilesOf(r)))
  }

  /** The operations of a request do not step on one another. */
  ghost predicate Independent(project: Location, original: Content, r: Request) {
    NoClash(SetupOps(project, original, r))
  }

  function Lookup(files: seq<(string, Content)>, name: string): Option<Content> {
    if files == [] then None
    else if files[0].0 == name then Some(files[0].1)
    else Lookup(files[1..], name)
  }

  /** What the request alone says about a key file. */
  function Wanted(original: Content, r: Request, k: KeyFile): Option<Content> {
    if k.CargoToml? then Some(r.rewrite(original)) else Lookup(FilesOf(r), NameOf(k))
  }

  lemma {:induction false} LookupExactly(files: seq<(string, Content)>, name: string)
    ensures Lookup(files, name).Some? ==> (name, Lookup(files, name).value) in files
    ensures Lookup(files, name).None? ==> forall f :: f in files ==> f.0 != name
  {
    if files != [] && files[0].0 != name {
      LookupExactly(files[1..], name);
      assert files == [files[0]] + files[1..];
    }
  }

  lemma WriteIsIn(project: Location, files: seq<(string, Content)>, f: (string, Content))
    requires f in files
    ensures Write(Resolve(project, f.0), f.1) in WritesOf(project, files)
  {
  }

  lemma SetupHas(project: Location, original: Content, r: Request, op: Op)
    ensures op in SetupOps(project, original, r) <==>
            op in KeyOps(project, original, r) || op in WritesOf(project, FilesOf(r))
  {
  }

  lemma KeyOpIsIn(project: Location, original: Content, r: Request, k: KeyFile)
    requires Touches(r, k)
    ensures KeyOp(project, original, r, k) in KeyOps(project, original, r)
  {
  }

  /** Some operation of the request is on the key file's path, and it does what the request wants. */
  lemma KeyFileIsCovered(project: Location, original: Content, r: Request, k: KeyFile) returns (op: Op)
    ensures op in SetupOps(project, original, r) && op.path == Resolve(project, NameOf(k))
    ensures EffectOf(op) == Wanted(original, r, k)
  {
    var found := Lookup(FilesOf(r), NameOf(k));
    LookupExactly(FilesOf(r), NameOf(k));
    if !k.CargoToml? && found.Some? {
      op := Write(Resolve(project, NameOf(k)), found.value);
      WriteIsIn(project, FilesOf(r), (NameOf(k), found.value));
    } else {
      assert found.None? ==> NameOf(k) !in NamesOf(r);
      op := KeyOp(project, original, r, k);
      KeyOpIsIn(project, original, r, k);
    }
    SetupHas(project, original, r, op);
  }

  /** The request's operations turn one directory into another in the given order. */
  ghost predicate Performs(project: Location, original: Content, r: Request, d: Directory, ops: seq<Op>, e: Directory) {
    multiset(ops) == SetupOps(project, original, r) && PerformAll(d, ops) == Some(e)
  }

  /** The operation is on a key file's path, and does there what the request does not want. */
  ghost predicate Contrary(project: Location, original: Content, r: Request, op: Op, k: KeyFile) {
    op.path == Resolve(project, NameOf(k)) && EffectOf(op) != Wanted(original, r, k)
  }

  /** None of the operations is contrary to what the request wants of the key files. */
  ghost predicate Agree(project: Location, original: Content, r: Request, ops: multiset<Op>) {
    forall op, k :: op in ops ==> !Contrary(project, original, r, op, k)
  }

  /** The request's own operations agree with it. */
  ghost predicate SelfConsistent(project: Location, original: Content, r: Request) {
    Agree(project, original, r, SetupOps(project, original, r))
  }

  ghost predicate Shows(project: Location, original: Content, r: Request, d: Directory) {
    forall k: KeyFile :: At(d, Resolve(project, NameOf(k))) == Wanted(original, r, k)
  }

  /** After a self-consistent request, whatever the directory was, the key files are what it wants. */
  lemma RequestDecides(project: Location, original: Content, r: Request, d: Directory, ops: seq<Op>, e: Directory)
    requires SelfConsistent(project, original, r) && Performs(project, original, r, d, ops, e)
    ensures Shows(project, original, r, e)
  {
    forall k ensures At(e, Resolve(project, NameOf(k))) == Wanted(original, r, k) {
      var own := KeyFileIsCovered(project, original, r, k);
      assert own in multiset(ops);
      forall op | op in ops && op.path == Resolve(project, NameOf(k)) ensures EffectOf(op) == Wanted(original, r, k) {
        assert op in multiset(ops) && !Contrary(project, original, r, op, k);
      }
      AllAgree(d, ops, Resolve(project, NameOf(k)), Wanted(original, r, k));
    }
  }

  /** However the setup is ordered and wherever it succeeds, the key files are what the request wants. */
  ghost predicate AlwaysDecides(project: Location, original: Content, r: Request) {
    forall d, ops, e :: Sound(d) && Performs(project, original, r, d, ops, e) ==> Shows(project, original, r, e)
  }

  /** Only a write can be contrary to its own request. */
  lemma ContraryIsWrite(project: Location, original: Content, r: Request, op: Op, k: KeyFile)
    requires op in SetupOps(project, original, r) && Contrary(project, original, r, op, k)
    ensures op.Write?
  {
    var s := OpHasSubject(project, original, r, op);
    if s.Key? && s.k != k {
      KeyLocationsAreApart(project, s.k, k);
    }
    LookupExactly(FilesOf(r), NameOf(k));
  }

  /** Wherever nothing is in the way, a request that is not self-consistent can end on what it does not want. */
  lemma ContraryLast(project: Location, original: Content, r: Request, op: Op, k: KeyFile, d: Directory)
      returns (ops: seq<Op>)
    requires Feasible(SetupOps(project, original, r)) && Open(d, SetupOps(project, original, r))
    requires op in SetupOps(project, original, r) && Contrary(project, original, r, op, k)
    ensures multiset(ops) == SetupOps(project, original, r) && PerformAll(d, ops).Some?
    ensures !Shows(project, original, r, PerformAll(d, ops).value)
  {
    ContraryIsWrite(project, original, r, op, k);
    ops := WriteComesLast(d, SetupOps(project, original, r), op);
  }

  /** A request that can be set up, none of whose files is to hold another, decides exactly if it is self-consistent. */
  lemma RequestDecidesExactly(project: Location, original: Content, r: Request)
    requires Feasible(SetupOps(project, original, r))
    ensures AlwaysDecides(project, original, r) <==> SelfConsistent(project, original, r)
  {
    if SelfConsistent(project, original, r) {
      forall d, ops, e | Sound(d) && Performs(project, original, r, d, ops, e) ensures Shows(project, original, r, e) {
        RequestDecides(project, original, r, d, ops, e);
      }
    } else {
      var op, k :| op in SetupOps(project, original, r) && Contrary(project, original, r, op, k);
      EmptyIsOpen(SetupOps(project, original, r));
      var ops := ContraryLast(project, original, r, op, k, EMPTY);
      assert Performs(project, original, r, EMPTY, ops, PerformAll(EMPTY, ops).value);
    }
  }

  /** Canonical names, none of them twice and none `Cargo.toml`: what the editor lets one send. */
  ghost predicate OrdinaryNames(r: Request) {
    && (forall f :: f in FilesOf(r) ==> Canonical(Split(f.0)) && f.0 != NameOf(CargoToml))
    && (forall f, g :: f in FilesOf(r) && g in FilesOf(r) && f.0 == g.0 ==> f == g)
  }

  /** The request's own file of that name is there, at its place in the project, with its content. */
  lemma OwnFileShows(project: Location, original: Content, r: Request, d: Directory, ops: seq<Op>, e: Directory,
                     f: (string, Content))
    requires OrdinaryNames(r) && Performs(project, original, r, d, ops, e) && f in FilesOf(r)
    ensures At(e, project + Split(f.0)) == Some(f.1)
  {
    CanonicalResolve(project, f.0);
    var own := Write(Resolve(project, f.0), f.1);
    WriteIsIn(project, FilesOf(r), f);
    SetupHas(project, original, r, own);
    assert own in multiset(ops);
    forall op | op in ops && op.path == own.path ensures op == own {
      assert op in multiset(ops);
      OneOpForOwnFile(project, original, r, f, op);
    }
    AllAgree(d, ops, own.path, Some(f.1));
  }

  lemma OneOpForOwnFile(project: Location, original: Content, r: Request, f: (string, Content), op: Op)
    requires OrdinaryNames(r) && f in FilesOf(r)
    requires op in SetupOps(project, original, r) && op.path == Resolve(project, f.0)
    ensures op == Write(Resolve(project, f.0), f.1)
  {
    var s := OpHasSubject(project, original, r, op);
    if s.Key? {
      OrdinaryOnKeyPath(project, r, f, s.k);
    } else {
      SameResolved(project, f.0, s.file.0);
    }
  }

  lemma SameResolved(project: Location, a: string, b: string)
    requires Canonical(Split(a)) && Canonical(Split(b)) && Resolve(project, a) == Resolve(project, b)
    ensures a == b
  {
    CanonicalResolve(project, a);
    CanonicalResolve(project, b);
    assert Split(a) == (project + Split(a))[|project|..] == (project + Split(b))[|project|..] == Split(b);
    SplitIsInjective(a, b);
  }

  lemma KeyPath(project: Location, k: KeyFile)
    ensures Resolve(project, NameOf(k)) == project + KeyParts(k)
  {
    KeyFilesAreCanonical(k);
    CanonicalResolve(project, NameOf(k));
  }

  lemma SingleIsOrdinary(r: Request, text: Content)
    requires r.code == Single(text)
    ensures OrdinaryNames(r)
  {
    KeyFilesAreCanonical(MainRs);
    KeyFilesAreCanonical(LibRs);
    KeyFilesAreApart(MainRs, CargoToml);
    KeyFilesAreApart(LibRs, CargoToml);
  }

  /** Where the key files are. */
  lemma KeyPlaces()
    ensures KeyParts(BuildRs) == ["build.rs"] && KeyParts(CargoToml) == ["Cargo.toml"]
    ensures KeyParts(LibRs) == ["src", "lib.rs"] && KeyParts(MainRs) == ["src", "main.rs"]
  {
  }

  lemma LookupOne(f: (string, Content), name: string)
    ensures Lookup([f], name) == if f.0 == name then Some(f.1) else None
  {
    assert [f][1..] == [];
  }

  lemma NamesDiffer(j: KeyFile, k: KeyFile)
    ensures NameOf(j) == NameOf(k) ==> j == k
  {
    if j != k {
      KeyFilesAreApart(j, k);
    }
  }

  lemma SingleWants(original: Content, r: Request, text: Content, k: KeyFile)
    requires r.code == Single(text)
    ensures Wanted(original, r, k)
         == match k
            case MainRs => if r.crateType.Binary? then Some(text) else None
            case LibRs => if r.crateType.Library? then Some(text) else None
            case BuildRs => None
            case CargoToml => Some(r.rewrite(original))
  {
    var main := if r.crateType.Binary? then MainRs else LibRs;
    LookupOne((NameOf(main), text), NameOf(k));
    NamesDiffer(main, k);
  }

  /** After a program or a library of one file, that file is there, and neither the other one nor a `build.rs`. */
  lemma SingleDecides(project: Location, original: Content, r: Request, text: Content, d: Directory, ops: seq<Op>,
                      e: Directory, k: KeyFile)
    requires r.code == Single(text) && Performs(project, original, r, d, ops, e)
    ensures At(e, project + KeyParts(k))
         == match k
            case MainRs => if r.crateType.Binary? then Some(text) else None
            case LibRs => if r.crateType.Library? then Some(text) else None
            case BuildRs => None
            case CargoToml => Some(r.rewrite(original))
  {
    SingleIsOrdinary(r, text);
    OrdinaryIsSelfConsistent(project, original, r);
    RequestDecides(project, original, r, d, ops, e);
    KeyPath(project, k);
    SingleWants(original, r, text, k);
  }

  // ------------------------------------------------------------- names that are not canonical

  /** Following a name is following its parts one after the other. */
  lemma {:induction false} WalkOn(base: Location, a: Parts, b: Parts)
    ensures Walk(base, a + b) == Walk(Walk(base, a), b)
    decreases |a|
  {
    if a == [] {
      assert a + b == b;
    } else {
      assert (a + b)[1..] == a[1..] + b;
      WalkOn(base, a[1..], b);
      WalkOn(base + [a[0]], a[1..], b);
      if a[0] == ".." {
        WalkOn(if base == [] then [] else base[..|base| - 1], a[1..], b);
      }
    }
  }

  /** Two dots undo a part, a single dot and an empty part do nothing. */
  lemma DotsAreUndone(project: Location, part: string, rest: Parts)
    requires part != "" && part != "." && part != ".."
    ensures Walk(project, [part, ".."] + rest) == Walk(project, rest)
    ensures Walk(project, ["."] + rest) == Walk(project, [""] + rest) == Walk(project, rest)
  {
    assert ([part, ".."] + rest)[1..] == [".."] + rest;
    assert ([".."] + rest)[1..] == rest && (["."] + rest)[1..] == rest && ([""] + rest)[1..] == rest;
    assert (project + [part])[..|project + [part]| - 1] == project;
  }

  /** A name that begins with a slash leads out of the project. */
  lemma AbsoluteIsElsewhere(project: Location, other: Location, name: string)
    requires name != "" && name[0] == '/'
    ensures Resolve(project, name) == Resolve(other, name)
  {
  }

  // ------------------------------------------------------------- ordinary names and key files

  lemma OrdinaryOnKeyPath(project: Location, r: Request, f: (string, Content), k: KeyFile)
    requires OrdinaryNames(r) && f in FilesOf(r) && Resolve(project, f.0) == Resolve(project, NameOf(k))
    ensures f.0 == NameOf(k) && !k.CargoToml? && Lookup(FilesOf(r), NameOf(k)) == Some(f.1)
  {
    KeyFilesAreCanonical(k);
    CanonicalResolve(project, f.0);
    CanonicalResolve(project, NameOf(k));
    assert Split(f.0) == (project + Split(f.0))[|project|..] == (project + KeyParts(k))[|project|..] == KeyParts(k);
    SplitIsInjective(f.0, NameOf(k));
    LookupExactly(FilesOf(r), NameOf(k));
  }

  /** Requests with such names are self-consistent, `src` and `build.rs/x` included. */
  lemma OrdinaryIsSelfConsistent(project: Location, original: Content, r: Request)
    requires OrdinaryNames(r)
    ensures SelfConsistent(project, original, r)
  {
    forall op, k | op in SetupOps(project, original, r) ensures !Contrary(project, original, r, op, k) {
      if op.path == Resolve(project, NameOf(k)) {
        var s := OpHasSubject(project, original, r, op);
        if s.Key? {
          KeyLocationsAreApart(project, s.k, k);
          LookupExactly(FilesOf(r), NameOf(k));
        } else {
          OrdinaryOnKeyPath(project, r, s.file, k);
        }
      }
    }
  }

  /** So are requests whose operations do not step on one another. */
  lemma IndependentIsSelfConsistent(project: Location, original: Content, r: Request)
    requires Independent(project, original, r)
    ensures SelfConsistent(project, original, r)
  {
    forall op, k | op in SetupOps(project, original, r) ensures !Contrary(project, original, r, op, k) {
      var own := KeyFileIsCovered(project, original, r, k);
      KeyLocationsAreApart(project, k, k);
      if op.path == own.path {
        SamePathSameOp(own, op);
      }
    }
  }

  // ------------------------------------------------------------- which requests are independent

  lemma {:induction false} CanonicalWalk(base: Location, parts: Parts)
    requires Canonical(parts)
    ensures Walk(base, parts) == base + parts
    decreases |parts|
  {
    if parts == [] {
      assert base + parts == base;
    } else {
      CanonicalWalk(base + [parts[0]], parts[1..]);
      assert base + [parts[0]] + parts[1..] == base + parts;
    }
  }

  lemma CanonicalResolve(project: Location, name: string)
    requires Canonical(Split(name))
    ensures Resolve(project, name) == project + Split(name)
  {
    CanonicalWalk(project, Split(name));
    if name != "" && name[0] == '/' {
      assert Split(name)[0] == "";
    }
  }

  lemma KeyFilesAreCanonical(k: KeyFile)
    ensures Canonical(KeyParts(k))
  {
  }

  lemma KeyFilesAreApart(j: KeyFile, k: KeyFile)
    requires j != k
    ensures !Comparable(KeyParts(j), KeyParts(k))
  {
    var a, b := KeyParts(j), KeyParts(k);
    assert |"main.rs"| != |"lib.rs"|;
    assert |"build.rs"| != |"src"| && |"Cargo.toml"| != |"build.rs"| && |"Cargo.toml"| != |"src"|;
    PartsDiffer(a, b, if a[0] == b[0] then 1 else 0);
  }

  lemma PartsDiffer(a: Parts, b: Parts, i: nat)
    requires i < |a| && i < |b| && a[i] != b[i]
    ensures !Comparable(a, b)
  {
  }

  /**
    Canonical names, none a directory of another, and none a directory of a key file or below one. This
    is stricter than the editor, which also accepts `src` and `build.rs/x`.
   */
  ghost predicate NamesApart(r: Request) {
    && (forall f :: f in FilesOf(r) ==> Canonical(Split(f.0)) && f.0 != NameOf(CargoToml))
    && (forall f, g :: f in FilesOf(r) && g in FilesOf(r) && f != g ==> !Comparable(Split(f.0), Split(g.0)))
    && (forall f, k :: f in FilesOf(r) && f.0 != NameOf(k) ==> !Comparable(Split(f.0), KeyParts(k)))
  }

  lemma ApartInProject(project: Location, a: string, b: string)
    requires Canonical(Split(a)) && Canonical(Split(b)) && !Comparable(Split(a), Split(b))
    ensures Resolve(project, a) != Resolve(project, b)
    ensures !StrictlyComparable(Resolve(project, a), Resolve(project, b))
  {
    CanonicalResolve(project, a);
    CanonicalResolve(project, b);
    CommonDirectory(project, Split(a), Split(b));
    CommonDirectory(project, Split(b), Split(a));
  }

  /** What an operation of a request is about: a key file that is outdated or rewritten, or a file of its own. */
  datatype Subject = Key(k: KeyFile) | CodeFile(file: (string, Content))

  function SubjectName(s: Subject): string {
    if s.Key? then NameOf(s.k) else s.file.0
  }

  function SubjectOp(project: Location, original: Content, r: Request, s: Subject): Op {
    match s
    case Key(k) => KeyOp(project, original, r, k)
    case CodeFile(f) => Write(Resolve(project, f.0), f.1)
  }

  ghost predicate IsSubject(r: Request, s: Subject) {
    match s
    case Key(k) => Touches(r, k)
    case CodeFile(f) => f in FilesOf(r)
  }

  lemma WriteHasFile(project: Location, files: seq<(string, Content)>, op: Op) returns (i: nat)
    requires op in WritesOf(project, files)
    ensures i < |files| && op == Write(Resolve(project, files[i].0), files[i].1)
  {
    var ops := WritesOf(project, files);
    i :| 0 <= i < |ops| && ops[i] == op;
  }

  lemma OpHasSubject(project: Location, original: Content, r: Request, op: Op) returns (s: Subject)
    requires op in SetupOps(project, original, r)
    ensures IsSubject(r, s) && op == SubjectOp(project, original, r, s)
  {
    SetupHas(project, original, r, op);
    if op in KeyOps(project, original, r) {
      var k :| Touches(r, k) && op == KeyOp(project, original, r, k);
      s := Key(k);
    } else {
      var i := WriteHasFile(project, FilesOf(r), op);
      s := CodeFile(FilesOf(r)[i]);
    }
  }

  lemma CodeFileIsApart(r: Request, f: (string, Content), k: KeyFile)
    requires NamesApart(r) && f in FilesOf(r) && IsSubject(r, Key(k))
    ensures !Comparable(Split(f.0), Split(NameOf(k))) && !Comparable(Split(NameOf(k)), Split(f.0))
  {
    assert f.0 in NamesOf(r);
  }

  /** Different subjects have names that are apart. */
  lemma SubjectsAreApart(r: Request, s: Subject, t: Subject)
    requires NamesApart(r) && IsSubject(r, s) && IsSubject(r, t) && s != t
    ensures !Comparable(Split(SubjectName(s)), Split(SubjectName(t)))
  {
    match (s, t)
    case (Key(j), Key(k)) => KeyFilesAreApart(j, k);
    case (Key(j), CodeFile(g)) => CodeFileIsApart(r, g, j);
    case (CodeFile(f), Key(k)) => CodeFileIsApart(r, f, k);
    case (CodeFile(f), CodeFile(g)) =>
  }

  lemma SubjectIsCanonical(r: Request, s: Subject)
    requires NamesApart(r) && IsSubject(r, s)
    ensures Canonical(Split(SubjectName(s)))
  {
  }

  lemma OpsAreApart(project: Location, original: Content, r: Request, x: Op, y: Op)
    requires NamesApart(r) && x in SetupOps(project, original, r) && y in SetupOps(project, original, r) && x != y
    ensures x.path != y.path && !StrictlyComparable(x.path, y.path)
  {
    var s := OpHasSubject(project, original, r, x);
    var t := OpHasSubject(project, original, r, y);
    SubjectsAreApart(r, s, t);
    SubjectIsCanonical(r, s);
    SubjectIsCanonical(r, t);
    ApartInProject(project, SubjectName(s), SubjectName(t));
  }

  /** Requests whose names are so far apart can be set up in any order. */
  lemma ApartRequestsAreIndependent(project: Location, original: Content, r: Request)
    requires NamesApart(r)
    ensures Independent(project, original, r) && Apart(SetupOps(project, original, r))
  {
    forall x, y | x in SetupOps(project, original, r) && y in SetupOps(project, original, r) && x != y
      ensures x.path != y.path && !StrictlyComparable(x.path, y.path)
    {
      OpsAreApart(project, original, r, x, y);
    }
  }

  // ------------------------------------------------------------- exactly when the order matters

  lemma SetupDeletesApart(project: Location, original: Content, r: Request)
    ensures DeletesApart(SetupOps(project, original, r))
  {
    forall a, b | a in SetupOps(project, original, r) && b in SetupOps(project, original, r) && a.Delete? && b.Delete?
      ensures !StrictlyComparable(a.path, b.path)
    {
      var s := OpHasSubject(project, original, r, a);
      var t := OpHasSubject(project, original, r, b);
      if s.k != t.k {
        KeyLocationsAreApart(project, s.k, t.k);
      }
    }
  }

  lemma KeyLocationsAreApart(project: Location, j: KeyFile, k: KeyFile)
    ensures Resolve(project, NameOf(k)) != []
    ensures !StrictlyComparable(Resolve(project, NameOf(j)), Resolve(project, NameOf(k)))
    ensures j != k ==> Resolve(project, NameOf(j)) != Resolve(project, NameOf(k))
  {
    KeyFilesAreCanonical(j);
    KeyFilesAreCanonical(k);
    CanonicalResolve(project, NameOf(k));
    if j != k {
      KeyFilesAreApart(j, k);
      ApartInProject(project, NameOf(j), NameOf(k));
    }
  }

  /**
    Every interleaving of a request's deletes, writes and Cargo.toml rewrite comes to the same, in
    every directory, exactly when no two of them clash or they can never all succeed.
   */
  lemma SetupIsConfluentExactly(project: Location, original: Content, r: Request)
    ensures Confluent(SetupOps(project, original, r)) <==>
            Independent(project, original, r) || Doomed(SetupOps(project, original, r))
  {
    SetupDeletesApart(project, original, r);
    ConfluentExactly(SetupOps(project, original, r));
  }

  /** Wherever nothing is in the way, operations that clash make the orders differ, unless the setup always fails. */
  lemma DependentOrdersDiffer(project: Location, original: Content, r: Request, d: Directory)
      returns (xs: seq<Op>, ys: seq<Op>)
    requires !Independent(project, original, r) && !Doomed(SetupOps(project, original, r))
    requires Open(d, SetupOps(project, original, r))
    ensures OrdersDiffer(SetupOps(project, original, r), d, xs, ys)
  {
    SetupDeletesApart(project, original, r);
    xs, ys := ClashShowsInOrders(d, SetupOps(project, original, r));
  }

  /** A request that deletes a key file and writes to its path, or below it, is not independent. */
  lemma DeleteAndWriteClash(project: Location, original: Content, r: Request, k: KeyFile, f: (string, Content))
    requires !k.CargoToml? && NameOf(k) !in NamesOf(r) && f in FilesOf(r)
    requires var p, q := Resolve(project, NameOf(k)), Resolve(project, f.0); p == q || ProperPrefix(p, q)
    ensures !Independent(project, original, r)
  {
    var x, y := KeyOp(project, original, r, k), Write(Resolve(project, f.0), f.1);
    WriteIsIn(project, FilesOf(r), f);
    KeyOpIsIn(project, original, r, k);
    SetupHas(project, original, r, x);
    SetupHas(project, original, r, y);
    KeyLocationsAreApart(project, k, k);
    assert Clash(x, y);
  }

  lemma OneFileIsNotDoomed(project: Location, original: Content, r: Request, f: (string, Content), manifest: KeyFile)
    requires FilesOf(r) == [f] && Resolve(project, f.0) != [] && manifest.CargoToml?
    requires !StrictlyComparable(Resolve(project, f.0), Resolve(project, NameOf(manifest)))
    ensures !Doomed(SetupOps(project, original, r))
  {
    forall op | op in SetupOps(project, original, r)
      ensures op.path != []
      ensures op.Write? ==> op.path == Resolve(project, f.0) || op.path == Resolve(project, NameOf(manifest))
    {
      var s := OpHasSubject(project, original, r, op);
      if s.Key? {
        KeyLocationsAreApart(project, s.k, s.k);
      }
    }
  }

  lemma OneFileDiffers(project: Location, original: Content, r: Request, f: (string, Content), d: Directory)
      returns (xs: seq<Op>, ys: seq<Op>)
    requires Open(d, SetupOps(project, original, r))
    requires FilesOf(r) == [f] && Resolve(project, f.0) != [] && !Independent(project, original, r)
    requires forall k: KeyFile :: k.CargoToml? ==>
               !StrictlyComparable(Resolve(project, f.0), Resolve(project, NameOf(k)))
    ensures OrdersDiffer(SetupOps(project, original, r), d, xs, ys)
  {
    OneFileIsNotDoomed(project, original, r, f, CargoToml);
    xs, ys := DependentOrdersDiffer(project, original, r, d);
  }

  lemma DotWalks(project: Location, parts: Parts)
    requires Canonical(parts)
    ensures Walk(project, ["."] + parts) == project + parts
  {
    assert (["."] + parts)[1..] == parts;
    CanonicalWalk(project, parts);
  }

  lemma DottedResolves(project: Location, k: KeyFile)
    ensures var name := Join(["."] + KeyParts(k));
            Resolve(project, name) == Resolve(project, NameOf(k)) && name != NameOf(k)
  {
    var parts := ["."] + KeyParts(k);
    KeyPartsHaveNoSlash(k);
    KeyFilesAreCanonical(k);
    SplitJoin(parts);
    DotWalks(project, KeyParts(k));
    CanonicalResolve(project, NameOf(k));
    assert parts[0] == "." && Canonical(KeyParts(k));
  }

  /** Another name of a key file escapes the rule that spares the request's own files from deletion. */
  lemma OtherNameDiffers(project: Location, original: Content, r: Request, k: KeyFile, f: (string, Content),
                         d: Directory)
      returns (xs: seq<Op>, ys: seq<Op>)
    requires Open(d, SetupOps(project, original, r))
    requires !k.CargoToml? && FilesOf(r) == [f]
    requires f.0 != NameOf(k) && Resolve(project, f.0) == Resolve(project, NameOf(k))
    ensures OrdersDiffer(SetupOps(project, original, r), d, xs, ys)
  {
    DeleteAndWriteClash(project, original, r, k, f);
    forall c: KeyFile | c.CargoToml?
      ensures Resolve(project, f.0) != [] && !StrictlyComparable(Resolve(project, f.0), Resolve(project, NameOf(c)))
    {
      KeyLocationsAreApart(project, k, c);
      KeyLocationsAreApart(project, c, k);
    }
    KeyLocationsAreApart(project, k, k);
    xs, ys := OneFileDiffers(project, original, r, f, d);
  }

  /** With `./src/main.rs` the order decides whether there is a main file. */
  lemma DottedNameDiffers(project: Location, original: Content, r: Request, k: KeyFile, f: (string, Content),
                          d: Directory)
      returns (xs: seq<Op>, ys: seq<Op>)
    requires Open(d, SetupOps(project, original, r))
    requires !k.CargoToml? && FilesOf(r) == [f] && f.0 == Join(["."] + KeyParts(k))
    ensures OrdersDiffer(SetupOps(project, original, r), d, xs, ys)
  {
    DottedResolves(project, k);
    xs, ys := OtherNameDiffers(project, original, r, k, f, d);
  }

  lemma BelowInProject(project: Location, dir: string, name: string)
    requires Canonical(Split(dir)) && Canonical(Split(name)) && Under(dir, name)
    ensures Resolve(project, dir) != [] && ProperPrefix(Resolve(project, dir), Resolve(project, name))
  {
    CanonicalResolve(project, dir);
    CanonicalResolve(project, name);
    NameIsDirectoryAndRest(dir, name);
    CommonDirectory(project, Split(dir), Split(name));
  }

  /** What lies below one of two paths that are apart is apart from the other. */
  lemma BelowStaysApart(p: Location, q: Location, other: Location)
    requires ProperPrefix(p, q) && p != other && !StrictlyComparable(p, other)
    ensures !StrictlyComparable(q, other)
  {
    PrefixesOfOne(p, other, q);
    PrefixIsTransitive(p, q, other);
  }

  /** A file below a key file that the request lacks clashes with the delete of that key file. */
  lemma FileBelowKeyFileClashes(project: Location, original: Content, r: Request, k: KeyFile, f: (string, Content))
    requires !k.CargoToml? && NameOf(k) !in NamesOf(r)
    requires f in FilesOf(r) && Canonical(Split(f.0)) && Under(NameOf(k), f.0)
    ensures !Independent(project, original, r)
  {
    KeyFilesAreCanonical(k);
    BelowInProject(project, NameOf(k), f.0);
    DeleteAndWriteClash(project, original, r, k, f);
  }

  /** With `build.rs/x` alone, if the write comes first, `build.rs` is a directory and cannot be deleted. */
  lemma FileBelowKeyFileDiffers(project: Location, original: Content, r: Request, k: KeyFile, f: (string, Content),
                                d: Directory)
      returns (xs: seq<Op>, ys: seq<Op>)
    requires Open(d, SetupOps(project, original, r))
    requires !k.CargoToml? && FilesOf(r) == [f] && Canonical(Split(f.0)) && Under(NameOf(k), f.0)
    ensures OrdersDiffer(SetupOps(project, original, r), d, xs, ys)
  {
    KeyFilesAreCanonical(k);
    BelowInProject(project, NameOf(k), f.0);
    assert Split(f.0) != Split(NameOf(k));
    FileBelowKeyFileClashes(project, original, r, k, f);
    forall c: KeyFile | c.CargoToml?
      ensures !StrictlyComparable(Resolve(project, f.0), Resolve(project, NameOf(c)))
    {
      KeyLocationsAreApart(project, k, c);
      BelowStaysApart(Resolve(project, NameOf(k)), Resolve(project, f.0), Resolve(project, NameOf(c)));
    }
    xs, ys := OneFileDiffers(project, original, r, f, d);
  }

  // ------------------------------------------------------------- a fresh project

  /** What a container starts with: the project, its `src`, and the Cargo.toml that is read. */
  function FreshProject(project: Location, manifest: Content): Directory {
    Directory(map[Resolve(project, NameOf(CargoToml)) := manifest],
              ProperPrefixes(Resolve(project, NameOf(MainRs))))
  }

  lemma ParentIsAbove(project: Location, a: Parts, b: Parts)
    requires |a| == 1 && b != []
    ensures ProperPrefixes(project + a) <= ProperPrefixes(project + b)
  {
    forall i | 0 <= i < |project + a| ensures (project + a)[..i] in ProperPrefixes(project + b) {
      assert (project + a)[..i] == (project + b)[..i];
    }
  }

  lemma ManifestFits(project: Location, manifest: KeyFile, main: KeyFile)
    requires manifest.CargoToml? && main.MainRs?
    ensures ProperPrefixes(Resolve(project, NameOf(manifest))) <= ProperPrefixes(Resolve(project, NameOf(main)))
  {
    KeyFilesAreCanonical(manifest);
    KeyFilesAreCanonical(main);
    CanonicalResolve(project, NameOf(manifest));
    CanonicalResolve(project, NameOf(main));
    ParentIsAbove(project, KeyParts(manifest), KeyParts(main));
  }

  lemma OneFileIsSound(file: Location, content: Content, main: Location)
    requires main != [] && file != main && !StrictlyComparable(file, main)
    requires ProperPrefixes(file) <= ProperPrefixes(main)
    ensures Sound(Directory(map[file := content], ProperPrefixes(main)))
  {
    PrefixesNest(main);
    PrefixesNest(file);
  }

  lemma ApartIsFree(file: Location, content: Content, main: Location, p: Location)
    requires !ProperPrefix(p, main) && !ProperPrefix(file, p)
    ensures !Blocked(Directory(map[file := content], ProperPrefixes(main)), p)
  {
  }

  lemma FreshIsSound(project: Location, manifest: Content)
    ensures Sound(FreshProject(project, manifest))
    ensures forall k :: !Blocked(FreshProject(project, manifest), Resolve(project, NameOf(k)))
  {
    var file, main := Resolve(project, NameOf(CargoToml)), Resolve(project, NameOf(MainRs));
    KeyLocationsAreApart(project, CargoToml, MainRs);
    ManifestFits(project, CargoToml, MainRs);
    OneFileIsSound(file, manifest, main);
    forall k ensures !Blocked(FreshProject(project, manifest), Resolve(project, NameOf(k))) {
      KeyLocationsAreApart(project, k, MainRs);
      KeyLocationsAreApart(project, CargoToml, k);
      ApartIsFree(file, manifest, main, Resolve(project, NameOf(k)));
    }
  }

  lemma BelowIsNotAbove(p: Location, q: Location, main: Location)
    requires !ProperPrefix(p, main) && ProperPrefix(p, q)
    ensures !ProperPrefix(q, main)
  {
    PrefixIsTransitive(p, q, main);
  }

  lemma FreshAt(project: Location, manifest: Content, k: KeyFile, q: Location)
    requires !k.CargoToml? && ProperPrefix(Resolve(project, NameOf(k)), q)
    ensures !Blocked(FreshProject(project, manifest), q)
  {
    var file, main := Resolve(project, NameOf(CargoToml)), Resolve(project, NameOf(MainRs));
    KeyLocationsAreApart(project, k, MainRs);
    KeyLocationsAreApart(project, k, CargoToml);
    BelowStaysApart(Resolve(project, NameOf(k)), q, file);
    BelowIsNotAbove(Resolve(project, NameOf(k)), q, main);
    ApartIsFree(file, manifest, main, q);
  }

  lemma OneFileOps(project: Location, original: Content, r: Request, f: (string, Content), op: Op)
    requires FilesOf(r) == [f] && op in SetupOps(project, original, r)
    ensures op.path == Resolve(project, f.0) || exists k :: op.path == Resolve(project, NameOf(k))
  {
    var s := OpHasSubject(project, original, r, op);
  }

  /** In a fresh project nothing is in the way of a file on or below the path of a key file. */
  lemma FreshIsOpen(project: Location, original: Content, manifest: Content, r: Request, k: KeyFile,
                    f: (string, Content))
    requires FilesOf(r) == [f] && !k.CargoToml?
    requires var p, q := Resolve(project, NameOf(k)), Resolve(project, f.0); p == q || ProperPrefix(p, q)
    ensures Open(FreshProject(project, manifest), SetupOps(project, original, r))
  {
    FreshIsSound(project, manifest);
    if Resolve(project, NameOf(k)) != Resolve(project, f.0) {
      FreshAt(project, manifest, k, Resolve(project, f.0));
    }
    forall op | op in SetupOps(project, original, r) ensures !Blocked(FreshProject(project, manifest), op.path) {
      OneFileOps(project, original, r, f, op);
    }
  }
}
