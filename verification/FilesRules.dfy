/** The rules for file names in the editor: which are valid, the tree they make, renaming a directory. */
module FilesRules {
  import opened Paths
  import opened Wrappers

  // ------------------------------------------------------------- valid names

  datatype FilePathError =
    | FileCargoToml
    | FilePlaygroundToml
    | FileDotfile
    | FileEmptyName
    | DirLeadingSlash
    | DirEmptyComponent
    | FileDuplicate(value: string)
    | FileDirConflict
    | DirDuplicate(value: string)

  datatype Result<T> = Ok(value: T) | Err(error: FilePathError)

  function Name(parts: Parts): string
    requires parts != []
  {
    parts[|parts| - 1]
  }

  predicate StartsWithDot(part: string) {
    part != "" && part[0] == '.'
  }

  /** Every part is there and none is hidden: the name is the path it stands for. */
  predicate Canonical(parts: Parts) {
    forall i :: 0 <= i < |parts| ==> parts[i] != "" && !StartsWithDot(parts[i])
  }

  predicate Reserved(parts: Parts) {
    parts == ["Cargo.toml"] || parts == ["Playground.toml"]
  }

  predicate ValidName(name: string) {
    Canonical(Split(name)) && !Reserved(Split(name))
  }

  predicate FinePart(part: string) {
    part != "" && !StartsWithDot(part)
  }

  /** A part may start at position `i`. */
  predicate FineStart(name: string, i: int) {
    0 <= i < |name| && name[i] != '/' && name[i] != '.'
  }

  predicate AfterSlash(name: string, i: int) {
    1 <= i <= |name| && name[i - 1] == '/'
  }

  ghost predicate LaterStartsAreFine(name: string) {
    forall i :: AfterSlash(name, i) ==> FineStart(name, i)
  }

  ghost predicate LaterPartsAreFine(parts: Parts) {
    forall j :: 1 <= j < |parts| ==> FinePart(parts[j])
  }

  lemma FirstPartExactly(name: string)
    ensures FinePart(Split(name)[0]) <==> FineStart(name, 0)
  {
  }

  lemma StartsCons(c: char, s: string)
    ensures LaterStartsAreFine([c] + s) <==> LaterStartsAreFine(s) && (c == '/' ==> FineStart(s, 0))
  {
    var name := [c] + s;
    if LaterStartsAreFine(name) {
      forall i | AfterSlash(s, i) ensures FineStart(s, i) {
        assert AfterSlash(name, i + 1) && FineStart(name, i + 1);
      }
      assert c == '/' ==> AfterSlash(name, 1) && FineStart(name, 1);
    }
    if LaterStartsAreFine(s) && (c == '/' ==> FineStart(s, 0)) {
      forall i | AfterSlash(name, i) ensures FineStart(name, i) {
        assert i > 1 ==> AfterSlash(s, i - 1) && FineStart(s, i - 1);
      }
    }
  }

  lemma PartsCons(c: char, parts: Parts)
    requires parts != []
    ensures LaterPartsAreFine([""] + parts) <==> LaterPartsAreFine(parts) && FinePart(parts[0])
    ensures LaterPartsAreFine([[c] + parts[0]] + parts[1..]) <==> LaterPartsAreFine(parts)
  {
    var a, b := [""] + parts, [[c] + parts[0]] + parts[1..];
    assert forall j :: 0 <= j < |parts| ==> a[j + 1] == parts[j];
    assert forall j :: 1 <= j < |parts| ==> b[j] == parts[j];
    if LaterPartsAreFine(a) {
      forall j | 0 <= j < |parts| ensures FinePart(parts[j]) {
        assert FinePart(a[j + 1]);
      }
    }
  }

  lemma {:induction false} LaterPartsExactly(name: string)
    ensures LaterPartsAreFine(Split(name)) <==> LaterStartsAreFine(name)
  {
    if name != "" {
      var c, rest := name[0], name[1..];
      assert name == [c] + rest;
      LaterPartsExactly(rest);
      FirstPartExactly(rest);
      SplitCons(c, rest);
      StartsCons(c, rest);
      PartsCons(c, Split(rest));
    }
  }

  /** At its beginning and after each slash, a canonical name goes on with neither a slash nor a dot. */
  lemma CanonicalExactly(name: string)
    ensures Canonical(Split(name)) <==>
            FineStart(name, 0) && forall i :: AfterSlash(name, i) ==> FineStart(name, i)
  {
    FirstPartExactly(name);
    LaterPartsExactly(name);
    var parts := Split(name);
    if FinePart(parts[0]) && LaterPartsAreFine(parts) {
      assert forall j :: 0 <= j < |parts| ==> j == 0 || FinePart(parts[j]);
    }
    if Canonical(parts) {
      assert FinePart(parts[0]) && LaterPartsAreFine(parts);
    }
  }

  /** Which of a name's faults is reported. */
  predicate Reports(parts: Parts, error: FilePathError)
    requires parts != []
  {
    match error
    case FileEmptyName => Name(parts) == ""
    case DirLeadingSlash => Name(parts) != "" && parts[0] == ""
    case DirEmptyComponent => Name(parts) != "" && parts[0] != "" && "" in parts
    case FileDotfile => "" !in parts && exists i :: 0 <= i < |parts| && StartsWithDot(parts[i])
    case FileCargoToml => parts == ["Cargo.toml"]
    case FilePlaygroundToml => parts == ["Playground.toml"]
    case _ => false
  }

  method AnyStartsWithDot(parts: Parts) returns (any: bool)
    ensures any <==> exists i :: 0 <= i < |parts| && StartsWithDot(parts[i])
  {
    for i := 0 to |parts|
      invariant forall k :: 0 <= k < i ==> !StartsWithDot(parts[k])
    {
      if StartsWithDot(parts[i]) {
        return true;
      }
    }
    return false;
  }

  method MakeValidatedFilePath(absolute: string) returns (r: Result<Parts>)
    ensures r.Ok? <==> ValidName(absolute)
    ensures r.Ok? ==> r.value == Split(absolute)
    ensures r.Err? ==> Reports(Split(absolute), r.error)
  {
    var parts := Split(absolute);
    var name := Name(parts);
    if name == "" {
      assert !Canonical(parts);
      return Err(FileEmptyName);
    }
    if parts[0] == "" {
      assert !Canonical(parts);
      return Err(DirLeadingSlash);
    }
    var parents := Parents(parts);
    for i := 0 to |parents|
      invariant forall k :: 0 <= k < i ==> parts[k] != ""
    {
      assert parents[i] == parts[i];
      if parents[i] == "" {
        assert !Canonical(parts);
        return Err(DirEmptyComponent);
      }
    }
    assert forall k :: 0 <= k < |parts| ==> parts[k] != "";
    var dotfile := AnyStartsWithDot(parts);
    if dotfile {
      return Err(FileDotfile);
    }
    assert Canonical(parts);
    if parents == [] && name == "Cargo.toml" {
      assert parts == ["Cargo.toml"];
      return Err(FileCargoToml);
    }
    if parents == [] && name == "Playground.toml" {
      assert parts == ["Playground.toml"];
      return Err(FilePlaygroundToml);
    }
    return Ok(parts);
  }

  /** The name can be added to the files. */
  predicate ValidIn(files: seq<string>, name: string) {
    ValidName(name) && forall i :: 0 <= i < |files| ==> !Comparable(Split(files[i]), Split(name))
  }

  /** Of the files, the one at `i` is the first that the name equals, lies below or would be a directory of. */
  predicate FirstInTheWay(files: seq<string>, name: string, i: int) {
    && 0 <= i < |files| && Comparable(Split(files[i]), Split(name))
    && forall k :: 0 <= k < i ==> !Comparable(Split(files[k]), Split(name))
  }

  method MakeValidatedFilePathIn(files: seq<string>, absolute: string) returns (r: Result<Parts>)
    ensures r.Ok? <==> ValidIn(files, absolute)
    ensures r.Ok? ==> r.value == Split(absolute)
    ensures !ValidName(absolute) ==> r.Err? && Reports(Split(absolute), r.error)
    ensures r.Err? && ValidName(absolute) ==>
              exists i :: FirstInTheWay(files, absolute, i)
                && r.error == if files[i] == absolute then FileDuplicate(absolute) else FileDirConflict
  {
    r := MakeValidatedFilePath(absolute);
    if r.Err? {
      return;
    }
    var path := r.value;
    for i := 0 to |files|
      invariant forall k :: 0 <= k < i ==> !Comparable(Split(files[k]), path)
    {
      if files[i] == absolute {
        assert Comparable(Split(files[i]), path);
        return Err(FileDuplicate(files[i]));
      }
      var below := ArrayIsPrefix(path, Split(files[i]));
      var above := ArrayIsPrefix(Split(files[i]), path);
      if below || above {
        return Err(FileDirConflict);
      }
    }
  }

  // ------------------------------------------------------------- the tree

  datatype Path = FilePath(parts: Parts) | DirPath(parts: Parts)

  function Absolute(p: Path): string {
    Join(p.parts)
  }

  /** The directory is a proper, non-empty beginning of the name. */
  predicate Ancestor(dir: Parts, parts: Parts) {
    dir != [] && |dir| < |parts| && IsPrefix(dir, parts)
  }

  function Files(tree: seq<Path>): seq<string> {
    if tree == [] then []
    else
      var last := tree[|tree| - 1];
      Files(tree[..|tree| - 1]) + (if last.FilePath? then [Absolute(last)] else [])
  }

  ghost predicate AncestorOfAny(dir: Parts, names: seq<string>) {
    exists i :: 0 <= i < |names| && Ancestor(dir, Split(names[i]))
  }

  ghost predicate DirsAre(tree: seq<Path>, names: seq<string>) {
    forall p :: DirPath(p) in tree <==> AncestorOfAny(p, names)
  }

  ghost predicate DirsOnce(tree: seq<Path>) {
    forall i, j :: 0 <= i < j < |tree| && tree[i].DirPath? && tree[j].DirPath? ==> tree[i] != tree[j]
  }

  /** Every ancestor of an entry is listed before it. */
  ghost predicate AncestorsFirst(tree: seq<Path>) {
    forall j, p :: 0 <= j < |tree| && Ancestor(p, tree[j].parts) ==> DirPath(p) in tree[..j]
  }

  ghost predicate WellFormed(tree: seq<Path>) {
    && DirsOnce(tree) && AncestorsFirst(tree)
    && forall i :: 0 <= i < |tree| ==> tree[i].parts != [] && NoSlash(tree[i].parts)
  }

  /** The directories the loop has pushed, by their absolute names. */
  ghost predicate Tracks(added: set<string>, tree: seq<Path>) {
    forall a :: a in added <==> exists p :: DirPath(p) in tree && Join(p) == a
  }

  lemma FilesSnoc(tree: seq<Path>, p: Path)
    ensures Files(tree + [p]) == Files(tree) + (if p.FilePath? then [Absolute(p)] else [])
  {
  }

  /** The entry may follow: its ancestors are there and, as a directory, it is new. */
  lemma PushKeeps(tree: seq<Path>, entry: Path)
    requires WellFormed(tree) && entry.parts != [] && NoSlash(entry.parts)
    requires forall p :: Ancestor(p, entry.parts) ==> DirPath(p) in tree
    requires entry.DirPath? ==> entry !in tree
    ensures WellFormed(tree + [entry])
  {
    var longer := tree + [entry];
    forall j, p | 0 <= j < |longer| && Ancestor(p, longer[j].parts) ensures DirPath(p) in longer[..j] {
      assert longer[..j] == if j < |tree| then tree[..j] else tree;
    }
  }

  lemma AncestorIsPrefix(p: Parts, q: Parts, parts: Parts)
    requires Ancestor(p, q) && IsPrefix(q, parts)
    ensures Ancestor(p, parts)
  {
  }

  /** Pushes the directories on the way to a file that are not there yet. */
  method PushParents(tree: seq<Path>, added: set<string>, parts: Parts)
      returns (longer: seq<Path>, more: set<string>)
    requires WellFormed(tree) && Tracks(added, tree) && parts != [] && NoSlash(parts)
    ensures WellFormed(longer) && Tracks(more, longer) && Files(longer) == Files(tree)
    ensures forall p :: DirPath(p) in longer <==> DirPath(p) in tree || Ancestor(p, parts)
  {
    longer, more := tree, added;
    for i := 0 to |parts| - 1
      invariant WellFormed(longer) && Tracks(more, longer) && Files(longer) == Files(tree)
      invariant forall p :: DirPath(p) in longer <==> DirPath(p) in tree || (Ancestor(p, parts) && |p| <= i)
    {
      var dir := parts[..i + 1];
      var absolute := Join(dir);
      assert Ancestor(dir, parts);
      DirIsKnownByName(longer, more, dir);
      if absolute !in more {
        forall p | Ancestor(p, dir) ensures DirPath(p) in longer {
          AncestorIsPrefix(p, dir, parts);
        }
        PushKeeps(longer, DirPath(dir));
        FilesSnoc(longer, DirPath(dir));
        TracksPush(more, longer, dir);
        more := more + {absolute};
        longer := longer + [DirPath(dir)];
      }
      forall p | Ancestor(p, parts) && |p| == i + 1 ensures p == dir {
      }
    }
  }

  /** Comparing directories by their absolute names is comparing them part by part. */
  lemma DirIsKnownByName(tree: seq<Path>, added: set<string>, dir: Parts)
    requires WellFormed(tree) && Tracks(added, tree) && dir != [] && NoSlash(dir)
    ensures Join(dir) in added <==> DirPath(dir) in tree
  {
    if Join(dir) in added {
      var p :| DirPath(p) in tree && Join(p) == Join(dir);
      SplitJoin(dir);
      SplitJoin(p);
    }
  }

  lemma TracksPush(added: set<string>, tree: seq<Path>, dir: Parts)
    requires Tracks(added, tree)
    ensures Tracks(added + {Join(dir)}, tree + [DirPath(dir)])
  {
  }

  lemma TracksFile(added: set<string>, tree: seq<Path>, parts: Parts)
    requires Tracks(added, tree)
    ensures Tracks(added, tree + [FilePath(parts)])
  {
  }

  lemma AnySnoc(dir: Parts, names: seq<string>, name: string)
    ensures AncestorOfAny(dir, names + [name]) <==> AncestorOfAny(dir, names) || Ancestor(dir, Split(name))
  {
    if AncestorOfAny(dir, names) {
      var i :| 0 <= i < |names| && Ancestor(dir, Split(names[i]));
      assert (names + [name])[i] == names[i];
    }
    if Ancestor(dir, Split(name)) {
      assert (names + [name])[|names|] == name;
    }
  }

  lemma DirsAreSnoc(tree: seq<Path>, longer: seq<Path>, names: seq<string>, name: string)
    requires DirsAre(tree, names)
    requires forall p :: DirPath(p) in longer <==> DirPath(p) in tree || Ancestor(p, Split(name))
    ensures DirsAre(longer, names + [name])
  {
    forall p ensures DirPath(p) in longer <==> AncestorOfAny(p, names + [name]) {
      AnySnoc(p, names, name);
    }
  }

  lemma FilePushed(tree: seq<Path>, names: seq<string>, parts: Parts)
    requires DirsAre(tree, names)
    ensures DirsAre(tree + [FilePath(parts)], names)
  {
  }

  /** One round of the loop: the directories on the way to a file, then the file. */
  method PushFile(tree: seq<Path>, added: set<string>, name: string, ghost names: seq<string>)
      returns (longer: seq<Path>, more: set<string>)
    requires WellFormed(tree) && Tracks(added, tree) && DirsAre(tree, names)
    ensures WellFormed(longer) && Tracks(more, longer) && DirsAre(longer, names + [name])
    ensures Files(longer) == Files(tree) + [name]
  {
    var parts := Split(name);
    SplitHasNoSlash(name);
    longer, more := PushParents(tree, added, parts);
    DirsAreSnoc(tree, longer, names, name);
    PushKeeps(longer, FilePath(parts));
    FilesSnoc(longer, FilePath(parts));
    FilePushed(longer, names + [name], parts);
    TracksFile(more, longer, parts);
    JoinSplit(name);
    longer := longer + [FilePath(parts)];
  }

  /**
    The tree of the names in the order that sorting gives them. Every name is listed as a file, in
    that order; exactly their ancestors are listed as directories, once each, and before what they hold.
   */
  method FilenamesToTree(ghost names: seq<string>, sorted: seq<string>) returns (tree: seq<Path>)
    requires multiset(sorted) == multiset(names)
    ensures multiset(Files(tree)) == multiset(names) && Files(tree) == sorted
    ensures DirsAre(tree, sorted)
    ensures WellFormed(tree)
  {
    tree := [];
    var added: set<string> := {};
    for k := 0 to |sorted|
      invariant Files(tree) == sorted[..k]
      invariant DirsAre(tree, sorted[..k])
      invariant WellFormed(tree) && Tracks(added, tree)
    {
      assert sorted[..k + 1] == sorted[..k] + [sorted[k]];
      tree, added := PushFile(tree, added, sorted[k], sorted[..k]);
    }
    assert sorted[..|sorted|] == sorted;
  }

  predicate PrefixFree(names: seq<string>) {
    forall i, j :: 0 <= i < j < |names| ==> !Comparable(Split(names[i]), Split(names[j]))
  }

  lemma {:induction false} FileIsName(tree: seq<Path>, i: nat) returns (k: nat)
    requires WellFormed(tree) && i < |tree| && tree[i].FilePath?
    ensures k < |Files(tree)| && Split(Files(tree)[k]) == tree[i].parts
  {
    var n := |tree| - 1;
    assert tree == tree[..n] + [tree[n]];
    FilesSnoc(tree[..n], tree[n]);
    if i == n {
      k := |Files(tree)| - 1;
      SplitJoin(tree[n].parts);
    } else {
      ShorterIsWellFormed(tree, n);
      k := FileIsName(tree[..n], i);
    }
  }

  lemma ShorterIsWellFormed(tree: seq<Path>, n: nat)
    requires WellFormed(tree) && n <= |tree|
    ensures WellFormed(tree[..n])
  {
  }

  lemma {:induction false} FilesCount(tree: seq<Path>, i: nat, j: nat) returns (k: nat, l: nat)
    requires WellFormed(tree) && i < j < |tree| && tree[i].FilePath? && tree[j].FilePath?
    ensures k < l < |Files(tree)| && Split(Files(tree)[k]) == tree[i].parts && Split(Files(tree)[l]) == tree[j].parts
  {
    var n := |tree| - 1;
    assert tree == tree[..n] + [tree[n]];
    FilesSnoc(tree[..n], tree[n]);
    ShorterIsWellFormed(tree, n);
    if j == n {
      k := FileIsName(tree[..n], i);
      l := |Files(tree)| - 1;
      SplitJoin(tree[n].parts);
    } else {
      k, l := FilesCount(tree[..n], i, j);
    }
  }

  lemma FileIsNoDirectory(tree: seq<Path>, f: nat, d: nat)
    requires WellFormed(tree) && DirsAre(tree, Files(tree)) && PrefixFree(Files(tree))
    requires f < |tree| && d < |tree| && tree[f].FilePath? && tree[d].DirPath?
    ensures tree[f].parts != tree[d].parts
  {
    var k := FileIsName(tree, f);
    assert DirPath(tree[d].parts) in tree;
    var m :| 0 <= m < |Files(tree)| && Ancestor(tree[d].parts, Split(Files(tree)[m]));
    assert k != m ==> !Comparable(Split(Files(tree)[k]), Split(Files(tree)[m]));
  }

  lemma EntriesAreDistinct(tree: seq<Path>, i: nat, j: nat)
    requires WellFormed(tree) && DirsAre(tree, Files(tree)) && PrefixFree(Files(tree)) && i < j < |tree|
    ensures Absolute(tree[i]) != Absolute(tree[j])
  {
    SplitJoin(tree[i].parts);
    SplitJoin(tree[j].parts);
    if tree[i].FilePath? && tree[j].FilePath? {
      var k, l := FilesCount(tree, i, j);
      assert !Comparable(Split(Files(tree)[k]), Split(Files(tree)[l]));
    } else if tree[i].FilePath? {
      FileIsNoDirectory(tree, i, j);
    } else if tree[j].FilePath? {
      FileIsNoDirectory(tree, j, i);
    }
  }

  lemma {:induction false} NameIsFile(tree: seq<Path>, k: nat) returns (i: nat)
    requires k < |Files(tree)|
    ensures i < |tree| && tree[i].FilePath? && Absolute(tree[i]) == Files(tree)[k]
  {
    var n := |tree| - 1;
    if k < |Files(tree[..n])| {
      i := NameIsFile(tree[..n], k);
    } else {
      i := n;
    }
  }

  lemma {:induction false} NamesAreFiles(tree: seq<Path>, k: nat, l: nat) returns (i: nat, j: nat)
    requires k < l < |Files(tree)|
    ensures i < j < |tree| && tree[i].FilePath? && tree[j].FilePath?
    ensures Absolute(tree[i]) == Files(tree)[k] && Absolute(tree[j]) == Files(tree)[l]
  {
    var n := |tree| - 1;
    if l < |Files(tree[..n])| {
      i, j := NamesAreFiles(tree[..n], k, l);
    } else {
      i := NameIsFile(tree[..n], k);
      j := n;
    }
  }

  /** A file that is above another is listed once as a file and once as a directory. */
  lemma AncestorRepeats(tree: seq<Path>, k: nat, l: nat) returns (i: nat, j: nat)
    requires DirsAre(tree, Files(tree)) && k < |Files(tree)| && l < |Files(tree)|
    requires Ancestor(Split(Files(tree)[k]), Split(Files(tree)[l]))
    ensures i < |tree| && j < |tree| && i != j && Absolute(tree[i]) == Absolute(tree[j])
  {
    var dir := Split(Files(tree)[k]);
    i := NameIsFile(tree, k);
    assert AncestorOfAny(dir, Files(tree));
    j :| 0 <= j < |tree| && tree[j] == DirPath(dir);
    JoinSplit(Files(tree)[k]);
  }

  lemma ComparableRepeats(tree: seq<Path>, k: nat, l: nat) returns (i: nat, j: nat)
    requires DirsAre(tree, Files(tree)) && k < l < |Files(tree)|
    requires Comparable(Split(Files(tree)[k]), Split(Files(tree)[l]))
    ensures i < |tree| && j < |tree| && i != j && Absolute(tree[i]) == Absolute(tree[j])
  {
    var a, b := Split(Files(tree)[k]), Split(Files(tree)[l]);
    if a == b {
      i, j := NamesAreFiles(tree, k, l);
      SplitIsInjective(Files(tree)[k], Files(tree)[l]);
    } else if IsPrefix(a, b) {
      i, j := AncestorRepeats(tree, k, l);
    } else {
      i, j := AncestorRepeats(tree, l, k);
    }
  }

  ghost predicate AbsolutesAreDistinct(tree: seq<Path>) {
    forall i, j :: 0 <= i < j < |tree| ==> Absolute(tree[i]) != Absolute(tree[j])
  }

  /** Every entry of the tree has its own absolute path exactly when no name is another's, or its directory. */
  lemma AbsolutesAreDistinctExactly(tree: seq<Path>)
    requires WellFormed(tree) && DirsAre(tree, Files(tree))
    ensures AbsolutesAreDistinct(tree) <==> PrefixFree(Files(tree))
  {
    if PrefixFree(Files(tree)) {
      forall i, j | 0 <= i < j < |tree| ensures Absolute(tree[i]) != Absolute(tree[j]) {
        EntriesAreDistinct(tree, i, j);
      }
    } else {
      var k, l :| 0 <= k < l < |Files(tree)| && Comparable(Split(Files(tree)[k]), Split(Files(tree)[l]));
      var i, j := ComparableRepeats(tree, k, l);
      assert Absolute(tree[if i < j then i else j]) == Absolute(tree[if i < j then j else i]);
    }
  }

  // ------------------------------------------------------------- renaming a directory

  datatype Rename = Rename(from: string, to: string)

  function PerformDirRename(r: Rename, s: string): string {
    if Under(r.from, s) then Join(Split(r.to) + Split(s)[|Split(r.from)|..]) else s
  }

  function Renamed(r: Rename, files: seq<string>): (names: seq<string>)
    ensures |names| == |files|
  {
    seq(|files|, i requires 0 <= i < |files| => PerformDirRename(r, files[i]))
  }

  predicate AllDistinct(names: seq<string>) {
    forall i, j :: 0 <= i < j < |names| ==> names[i] != names[j]
  }

  predicate ValidNames(names: seq<string>) {
    forall i :: 0 <= i < |names| ==> ValidName(names[i])
  }

  /** Every file has its own new name and every one is valid; nothing else is checked. */
  predicate Accepts(r: Rename, files: seq<string>) {
    AllDistinct(Renamed(r, files)) && ValidNames(Renamed(r, files))
  }

  lemma DistinctSnoc(names: seq<string>, name: string)
    requires AllDistinct(names) && name !in names
    ensures AllDistinct(names + [name])
  {
  }

  /** Of the names, the one at `i` is the first that repeats another or is not valid, and this says how. */
  ghost predicate FirstFault(names: seq<string>, i: int, error: FilePathError) {
    && 0 <= i < |names| && AllDistinct(names[..i]) && ValidNames(names[..i])
    && if names[i] in names[..i] then error == DirDuplicate(names[i])
       else !ValidName(names[i]) && Reports(Split(names[i]), error)
  }

  /** The loop over the new names, whatever the renamer is. */
  method CheckNames(names: seq<string>) returns (error: Option<FilePathError>)
    ensures error.None? <==> AllDistinct(names) && ValidNames(names)
    ensures error.Some? ==> exists i :: FirstFault(names, i, error.value)
  {
    var seen := {};
    for i := 0 to |names|
      invariant forall n :: n in seen <==> n in names[..i]
      invariant AllDistinct(names[..i]) && ValidNames(names[..i])
    {
      var newName := names[i];
      if newName in seen {
        var k :| 0 <= k < i && names[..i][k] == newName;
        assert names[k] == names[i];
        assert FirstFault(names, i, DirDuplicate(newName));
        return Some(DirDuplicate(newName));
      }
      seen := seen + {newName};
      var valid := MakeValidatedFilePath(newName);
      if valid.Err? {
        assert FirstFault(names, i, valid.error);
        return Some(valid.error);
      }
      DistinctSnoc(names[..i], newName);
      assert names[..i + 1] == names[..i] + [newName];
    }
    assert names[..|names|] == names;
    return None;
  }

  method MakeValidatedDirRenamer(files: seq<string>, r: Rename) returns (error: Option<FilePathError>)
    ensures error.None? <==> Accepts(r, files)
    ensures error.Some? ==> exists i :: FirstFault(Renamed(r, files), i, error.value)
  {
    error := CheckNames(Renamed(r, files));
  }

  /** A name below the directory changes in the directory only. */
  lemma DirRenameMoves(r: Rename, rest: string)
    ensures PerformDirRename(r, r.from + "/" + rest) == r.to + "/" + rest
  {
    var name := r.from + "/" + rest;
    UnderExactly(r.from, name);
    SplitBoth(r.from, rest);
    SplitBoth(r.to, rest);
    assert Split(name)[|Split(r.from)|..] == Split(rest);
    JoinSplit(r.to + "/" + rest);
  }

  /** No other name changes. */
  lemma DirRenameKeeps(r: Rename, s: string)
    requires !GoesOn(r.from, s)
    ensures PerformDirRename(r, s) == s
  {
    UnderExactly(r.from, s);
  }

  lemma RenameParts(r: Rename, s: string)
    ensures Split(PerformDirRename(r, s))
         == if Under(r.from, s) then Split(r.to) + Split(s)[|Split(r.from)|..] else Split(s)
  {
    if Under(r.from, s) {
      SplitHasNoSlash(s);
      SplitHasNoSlash(r.to);
      SplitJoin(Split(r.to) + Split(s)[|Split(r.from)|..]);
    }
  }

  /** A file of the directory becomes a file of the new one. */
  lemma RenamedIsUnder(r: Rename, s: string)
    requires Under(r.from, s)
    ensures Under(r.to, PerformDirRename(r, s))
  {
    RenameParts(r, s);
  }

  function Undone(r: Rename, s: string): string {
    PerformDirRename(Rename(r.to, r.from), PerformDirRename(r, s))
  }

  lemma UndoExactly(r: Rename, s: string)
    ensures Undone(r, s) == s <==> r.from == r.to || Under(r.from, s) || !Under(r.to, s)
  {
    var t := PerformDirRename(r, s);
    var back := Rename(r.to, r.from);
    RenameParts(r, s);
    RenameParts(back, t);
    if Under(r.from, s) {
      RenamedIsUnder(r, s);
      var n := |Split(r.from)|;
      NameIsDirectoryAndRest(r.from, s);
      assert Split(t)[|Split(r.to)|..] == Split(s)[n..];
      assert Split(Undone(r, s)) == Split(s);
      SplitIsInjective(Undone(r, s), s);
    } else if Under(r.to, s) {
      RenamedIsUnder(back, t);
    }
  }

  /** Renaming there and back restores every name exactly when no other file lies in the new directory. */
  lemma RenameUndoesExactly(r: Rename, files: seq<string>)
    ensures (forall i :: 0 <= i < |files| ==> Undone(r, files[i]) == files[i]) <==>
            r.from == r.to || forall i :: 0 <= i < |files| && !Under(r.from, files[i]) ==> !Under(r.to, files[i])
  {
    forall i | 0 <= i < |files|
      ensures Undone(r, files[i]) == files[i] <==>
              r.from == r.to || Under(r.from, files[i]) || !Under(r.to, files[i])
    {
      UndoExactly(r, files[i]);
    }
  }

  // ------------------------------------------------------------- no file is also a directory

  /** What is left of a name below a directory. */
  function Below(dir: string, name: string): Parts {
    var n := |Split(dir)|;
    if n <= |Split(name)| then Split(name)[n..] else []
  }

  /** A file that stays is in the way of one that moves. */
  predicate Collides(r: Rename, moved: string, stays: string) {
    || IsPrefix(Split(stays), Split(r.to))
    || (IsPrefix(Split(r.to), Split(stays)) && Comparable(Below(r.from, moved), Below(r.to, stays)))
  }

  lemma PrefixOfJoined(to: Parts, rest: Parts, g: Parts)
    ensures Comparable(to + rest, g) <==>
            IsPrefix(g, to) || (IsPrefix(to, g) && Comparable(rest, g[|to|..]))
  {
    var f := to + rest;
    if IsPrefix(g, to) {
      assert f[..|g|] == to[..|g|];
    } else if IsPrefix(to, g) {
      assert g == to + g[|to|..];
      CommonDirectory(to, rest, g[|to|..]);
      CommonDirectory(to, g[|to|..], rest);
    }
    PrefixesOfOne(to, g, f);
    PrefixIsTransitive(to, f, g);
  }

  lemma PrefixesOfOne(a: Parts, b: Parts, c: Parts)
    ensures IsPrefix(a, c) && IsPrefix(b, c) ==> Comparable(a, b)
  {
  }

  lemma PrefixIsTransitive(a: Parts, b: Parts, c: Parts)
    ensures IsPrefix(a, b) && IsPrefix(b, c) ==> IsPrefix(a, c)
  {
  }

  lemma MovedMeetsStaying(r: Rename, moved: string, stays: string)
    requires Under(r.from, moved) && !Under(r.from, stays)
    ensures Comparable(Split(PerformDirRename(r, moved)), Split(PerformDirRename(r, stays)))
       <==> Collides(r, moved, stays)
  {
    RenameParts(r, moved);
    PrefixOfJoined(Split(r.to), Below(r.from, moved), Split(stays));
  }

  lemma NameIsDirectoryAndRest(dir: string, name: string)
    requires Under(dir, name)
    ensures Split(name) == Split(dir) + Below(dir, name)
  {
  }

  lemma CommonComparable(dir: Parts, a: Parts, b: Parts)
    ensures Comparable(dir + a, dir + b) <==> Comparable(a, b)
  {
    CommonDirectory(dir, a, b);
    CommonDirectory(dir, b, a);
  }

  lemma MovedTogether(r: Rename, a: string, b: string)
    requires Under(r.from, a) && Under(r.from, b)
    ensures Comparable(Split(PerformDirRename(r, a)), Split(PerformDirRename(r, b))) <==> Comparable(Split(a), Split(b))
  {
    RenameParts(r, a);
    RenameParts(r, b);
    var x, y := Below(r.from, a), Below(r.from, b);
    NameIsDirectoryAndRest(r.from, a);
    NameIsDirectoryAndRest(r.from, b);
    CommonComparable(Split(r.from), x, y);
    CommonComparable(Split(r.to), x, y);
  }

  /** A rename keeps files and directories apart exactly when nothing that moves meets a file that stays. */
  lemma RenameKeepsPrefixFreeExactly(r: Rename, files: seq<string>)
    requires PrefixFree(files)
    ensures PrefixFree(Renamed(r, files)) <==>
            forall i, j :: 0 <= i < |files| && 0 <= j < |files| && Under(r.from, files[i]) && !Under(r.from, files[j])
              ==> !Collides(r, files[i], files[j])
  {
    var names := Renamed(r, files);
    forall i, j | 0 <= i < |files| && 0 <= j < |files| && Under(r.from, files[i]) && !Under(r.from, files[j])
      ensures Comparable(Split(names[i]), Split(names[j])) <==> Collides(r, files[i], files[j])
    {
      MovedMeetsStaying(r, files[i], files[j]);
    }
    forall i, j | 0 <= i < j < |files| && Under(r.from, files[i]) == Under(r.from, files[j])
      ensures !Comparable(Split(names[i]), Split(names[j]))
    {
      if Under(r.from, files[i]) {
        MovedTogether(r, files[i], files[j]);
      }
    }
  }

  /** It is enough that the files outside are not on the way to, at or below the new directory. */
  lemma RenameKeepsPrefixFree(r: Rename, files: seq<string>)
    requires PrefixFree(files)
    requires forall j :: 0 <= j < |files| && !Under(r.from, files[j]) ==> !Comparable(Split(files[j]), Split(r.to))
    ensures PrefixFree(Renamed(r, files))
  {
    RenameKeepsPrefixFreeExactly(r, files);
  }

  lemma ClashingNames(a: string, b: string, x: string, y: string, r: Rename, files: seq<string>)
    requires a != b && NoSlash([a, b, x, y])
    requires r == Rename(Join([a]), Join([b])) && files == [Join([a, x, y]), Join([b, x])]
    ensures Split(files[0]) == [a, x, y] && Split(files[1]) == [b, x]
    ensures Split(PerformDirRename(r, files[0])) == [b, x, y] && PerformDirRename(r, files[1]) == files[1]
  {
    var parts := [a, b, x, y];
    assert '/' !in parts[0] && '/' !in parts[1] && '/' !in parts[2] && '/' !in parts[3];
    SplitJoin([a]);
    SplitJoin([b]);
    SplitJoin([a, x, y]);
    SplitJoin([b, x]);
    RenameParts(r, files[0]);
    assert Under(r.from, files[0]) by {
      assert Parents([a, x, y])[..1] == [a];
    }
    assert !Under(r.from, files[1]) by {
      assert [b, x][0] != [a][0];
    }
    assert [b] + [a, x, y][1..] == [b, x, y];
  }

  lemma ClashingAreValid(a: string, b: string, x: string, y: string)
    requires a != b && Canonical([a, b, x, y])
    ensures !Comparable([a, x, y], [b, x])
    ensures Canonical([b, x, y]) && Canonical([b, x]) && Comparable([b, x, y], [b, x])
  {
    var parts := [a, b, x, y];
    assert forall i :: 0 <= i < 3 ==> [b, x, y][i] == parts[i + 1];
    assert forall i :: 0 <= i < 2 ==> [b, x][i] == parts[i + 1];
    assert [b, x, y][..2] == [b, x];
    assert [a, x, y][0] != [b, x][0];
  }

  /** Every name valid and new is not enough: `b/x` becomes a file and a directory when `a/x/y` moves to `b`. */
  lemma AcceptedRenameCanClash(a: string, b: string, x: string, y: string, r: Rename, files: seq<string>)
    requires a != b && Canonical([a, b, x, y]) && NoSlash([a, b, x, y])
    requires r == Rename(Join([a]), Join([b])) && files == [Join([a, x, y]), Join([b, x])]
    ensures PrefixFree(files) && Accepts(r, files) && !PrefixFree(Renamed(r, files))
  {
    ClashingNames(a, b, x, y, r, files);
    ClashingAreValid(a, b, x, y);
    var names := Renamed(r, files);
    assert Split(names[0]) == [b, x, y] && Split(names[1]) == [b, x];
  }
}
