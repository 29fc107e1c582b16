/** The editor's files: what each action does to them, and what every run of actions keeps. */
module FileState {
  import opened FilesRules
  import opened Paths
  import opened Wrappers

  datatype File = File(id: nat, name: string, content: string)

  datatype State = State(fileId: nat, active: Option<nat>, files: seq<File>)

  datatype Code = Single(text: string) | Multiple(codeFiles: seq<(string, string)>)

  datatype Action =
    | InitializeWith(name: string, content: string)
    | EditActiveFile(content: string)
    | CreateFile(name: string)
    | RenameFile(rename: Rename)
    | DeleteFileIds(ids: seq<nat>)
    | RenameDirectory(rename: Rename)
    | ActivateFile(name: string)
    | AddMainFunction
    | AddCrateType(crateType: string)
    | GistLoadPending
    | GistLoadFulfilled(code: Code)
    | FormatFulfilled(code: Code)

  const INITIAL := State(0, None, [])
  const MAIN_RS := "src/main.rs"
  const LIB_RS := "src/lib.rs"
  const HELLO_WORLD := "fn main() {\n    println!(\"Hello, world!\");\n}"

  function Names(files: seq<File>): (names: seq<string>)
    ensures |names| == |files| && forall i :: 0 <= i < |files| ==> names[i] == files[i].name
  {
    seq(|files|, i requires 0 <= i < |files| => files[i].name)
  }

  /** The first file that passes the test, as JavaScript's `find`. */
  function Find(files: seq<File>, test: File -> bool): (k: Option<nat>)
    ensures k.Some? ==> k.value < |files| && test(files[k.value]) && forall i :: 0 <= i < k.value ==> !test(files[i])
    ensures k.None? ==> forall i :: 0 <= i < |files| ==> !test(files[i])
  {
    if files == [] then None
    else if test(files[0]) then Some(0)
    else
      match Find(files[1..], test)
      case None => None
      case Some(k) => Some(k + 1)
  }

  function FindName(files: seq<File>, name: string): Option<nat> {
    Find(files, (f: File) => f.name == name)
  }

  function Filter(files: seq<File>, keep: File -> bool): seq<File> {
    if files == [] then []
    else
      var n := |files| - 1;
      Filter(files[..n], keep) + (if keep(files[n]) then [files[n]] else [])
  }

  /** The scan of `selectActiveFile`, which stops once it has seen both names. */
  function Scan(files: seq<File>, i: nat, main: Option<nat>, lib: Option<nat>): Option<nat>
    requires i <= |files|
    decreases |files| - i
  {
    if i < |files| && !(main.Some? && lib.Some?) then
      if files[i].name == MAIN_RS then Scan(files, i + 1, Some(files[i].id), lib)
      else if files[i].name == LIB_RS then Scan(files, i + 1, main, Some(files[i].id))
      else Scan(files, i + 1, main, lib)
    else if main.Some? then main
    else if lib.Some? then lib
    else if files == [] then None
    else Some(files[0].id)
  }

  function SelectActiveFile(files: seq<File>): Option<nat> {
    Scan(files, 0, None, None)
  }

  predicate HasId(files: seq<File>, id: nat) {
    exists i :: 0 <= i < |files| && files[i].id == id
  }

  function FixupAfterDeletion(s: State): State {
    if s.active.Some? && HasId(s.files, s.active.value) then s else s.(active := SelectActiveFile(s.files))
  }

  function WithContent(files: seq<File>, k: Option<nat>, content: string): seq<File>
    requires k.Some? ==> k.value < |files|
  {
    match k
    case None => files
    case Some(i) => files[i := files[i].(content := content)]
  }

  function Build(fileId: nat, code: seq<(string, string)>): (files: seq<File>)
    ensures |files| == |code|
    ensures forall i :: 0 <= i < |code| ==> files[i] == File(fileId + i, code[i].0, code[i].1)
  {
    seq(|code|, i requires 0 <= i < |code| => File(fileId + i, code[i].0, code[i].1))
  }

  function FindCode(code: seq<(string, string)>, name: string): Option<string> {
    if code == [] then None
    else if code[0].0 == name then Some(code[0].1)
    else FindCode(code[1..], name)
  }

  function FormattedFile(f: File, code: seq<(string, string)>): File {
    match FindCode(code, f.name)
    case None => f
    case Some(content) => f.(content := content)
  }

  function Formatted(files: seq<File>, code: seq<(string, string)>): (formatted: seq<File>)
    ensures |formatted| == |files|
    ensures forall i :: 0 <= i < |files| ==> formatted[i] == FormattedFile(files[i], code)
  {
    seq(|files|, i requires 0 <= i < |files| => FormattedFile(files[i], code))
  }

  function Moved(files: seq<File>, r: Rename): (moved: seq<File>)
    ensures |moved| == |files|
    ensures forall i :: 0 <= i < |files| ==> moved[i] == files[i].(name := PerformDirRename(r, files[i].name))
  {
    seq(|files|, i requires 0 <= i < |files| => files[i].(name := PerformDirRename(r, files[i].name)))
  }

  function Reduce(s: State, a: Action): State {
    match a
    case InitializeWith(name, content) =>
      if !ValidIn(Names(s.files), name) then s
      else State(s.fileId + 1, Some(s.fileId), [File(s.fileId, name, content)])
    case EditActiveFile(content) =>
      s.(files := WithContent(s.files, Find(s.files, (f: File) => Some(f.id) == s.active), content))
    case CreateFile(name) =>
      if !ValidIn(Names(s.files), name) then s
      else State(s.fileId + 1, Some(s.fileId), s.files + [File(s.fileId, name, "")])
    case RenameFile(r) =>
      var k := FindName(s.files, r.from);
      if k.None? || r.from == r.to || !ValidIn(Names(s.files), r.to) then s
      else s.(files := s.files[k.value := s.files[k.value].(name := r.to)])
    case DeleteFileIds(ids) => FixupAfterDeletion(s.(files := Filter(s.files, (f: File) => f.id !in ids)))
    case RenameDirectory(r) =>
      if r.from == r.to || !Accepts(r, Names(s.files)) then s else s.(files := Moved(s.files, r))
    case ActivateFile(name) =>
      (match FindName(s.files, name)
       case None => s
       case Some(k) => s.(active := Some(s.files[k].id)))
    case AddMainFunction =>
      (match FindName(s.files, MAIN_RS)
       case Some(k) => s.(active := Some(s.files[k].id))
       case None => State(s.fileId + 1, Some(s.fileId), s.files + [File(s.fileId, MAIN_RS, HELLO_WORLD)]))
    case AddCrateType(crateType) =>
      var k := FindName(s.files, LIB_RS);
      if k.None? then s
      else
        var content := "#![crate_type = \"" + crateType + "\"]\n" + s.files[k.value].content;
        s.(files := WithContent(s.files, k, content))
    case GistLoadPending => s.(active := None, files := [])
    case GistLoadFulfilled(Single(_)) => s
    case GistLoadFulfilled(Multiple(code)) =>
      var files := Build(s.fileId, code);
      State(s.fileId + |code|, SelectActiveFile(files), files)
    case FormatFulfilled(Single(_)) => s
    case FormatFulfilled(Multiple(code)) => s.(files := Formatted(s.files, code))
  }

  // ------------------------------------------------------------- what every run keeps

  ghost predicate DistinctIds(files: seq<File>) {
    forall i, j :: 0 <= i < j < |files| ==> files[i].id != files[j].id
  }

  ghost predicate DistinctNames(files: seq<File>) {
    forall i, j :: 0 <= i < j < |files| ==> files[i].name != files[j].name
  }

  ghost predicate ActiveExists(s: State) {
    s.active.Some? ==> HasId(s.files, s.active.value)
  }

  /** Ids tell the files apart, the next one is new, and the active file is one of the files. */
  ghost predicate Tracked(s: State) {
    && DistinctIds(s.files)
    && (forall i :: 0 <= i < |s.files| ==> s.files[i].id < s.fileId)
    && ActiveExists(s)
  }

  /** A gist brings no two files of one name. */
  ghost predicate Payload(a: Action) {
    a.GistLoadFulfilled? && a.code.Multiple? ==>
      forall i, j :: 0 <= i < j < |a.code.codeFiles| ==> a.code.codeFiles[i].0 != a.code.codeFiles[j].0
  }

  lemma ValidInIsNew(files: seq<File>, name: string)
    requires ValidIn(Names(files), name)
    ensures forall i :: 0 <= i < |files| ==> files[i].name != name
  {
  }

  lemma {:induction false} FilterKeeps(files: seq<File>, keep: File -> bool)
    ensures forall f :: f in Filter(files, keep) <==> f in files && keep(f)
  {
    if files != [] {
      var n := |files| - 1;
      FilterKeeps(files[..n], keep);
      assert files == files[..n] + [files[n]];
    }
  }

  ghost predicate Pairwise(files: seq<File>, apart: (File, File) -> bool) {
    forall i, j :: 0 <= i < j < |files| ==> apart(files[i], files[j])
  }

  /** Files that are pairwise apart in some way stay so when others go. */
  lemma {:induction false} FilterPairwise(files: seq<File>, keep: File -> bool, apart: (File, File) -> bool)
    requires Pairwise(files, apart)
    ensures Pairwise(Filter(files, keep), apart)
  {
    if files != [] {
      var n := |files| - 1;
      FilterPairwise(files[..n], keep, apart);
      FilterKeeps(files[..n], keep);
      forall f | f in Filter(files[..n], keep) ensures apart(f, files[n]) {
        var i :| 0 <= i < n && files[..n][i] == f;
      }
    }
  }

  lemma FilterDistinct(files: seq<File>, keep: File -> bool)
    ensures DistinctIds(files) ==> DistinctIds(Filter(files, keep))
    ensures DistinctNames(files) ==> DistinctNames(Filter(files, keep))
  {
    if DistinctIds(files) {
      FilterPairwise(files, keep, (f: File, g: File) => f.id != g.id);
    }
    if DistinctNames(files) {
      FilterPairwise(files, keep, (f: File, g: File) => f.name != g.name);
    }
  }

  lemma {:induction false} ScanFindsFile(files: seq<File>, i: nat, main: Option<nat>, lib: Option<nat>)
    requires i <= |files|
    requires (main.Some? ==> HasId(files, main.value)) && (lib.Some? ==> HasId(files, lib.value))
    ensures var found := Scan(files, i, main, lib);
            if found.Some? then HasId(files, found.value) else files == []
    decreases |files| - i
  {
    if i < |files| && !(main.Some? && lib.Some?) {
      if files[i].name == MAIN_RS {
        ScanFindsFile(files, i + 1, Some(files[i].id), lib);
      } else if files[i].name == LIB_RS {
        ScanFindsFile(files, i + 1, main, Some(files[i].id));
      } else {
        ScanFindsFile(files, i + 1, main, lib);
      }
    } else if main.None? && lib.None? && files != [] {
      assert HasId(files, files[0].id);
    }
  }

  ghost predicate Sees(files: seq<File>, i: nat, name: string, seen: Option<nat>) {
    if seen.Some? then exists k :: 0 <= k < |files| && k < i && files[k].name == name && seen.value == files[k].id
    else forall k :: 0 <= k < |files| && k < i ==> files[k].name != name
  }

  lemma {:induction false} ScanPrefersMain(files: seq<File>, i: nat, main: Option<nat>, lib: Option<nat>)
    requires i <= |files| && DistinctNames(files) && Sees(files, i, MAIN_RS, main) && Sees(files, i, LIB_RS, lib)
    ensures Scan(files, i, main, lib)
         == var m, l := FindName(files, MAIN_RS), FindName(files, LIB_RS);
            if m.Some? then Some(files[m.value].id)
            else if l.Some? then Some(files[l.value].id)
            else if files == [] then None else Some(files[0].id)
    decreases |files| - i
  {
    if i < |files| && !(main.Some? && lib.Some?) {
      if files[i].name == MAIN_RS {
        ScanPrefersMain(files, i + 1, Some(files[i].id), lib);
      } else if files[i].name == LIB_RS {
        ScanPrefersMain(files, i + 1, main, Some(files[i].id));
      } else {
        ScanPrefersMain(files, i + 1, main, lib);
      }
    }
  }

  /** The file to show: the program's main file, else the library's, else the first. */
  lemma ActiveIsMainThenLibThenFirst(files: seq<File>)
    requires DistinctNames(files)
    ensures SelectActiveFile(files)
         == var m, l := FindName(files, MAIN_RS), FindName(files, LIB_RS);
            if m.Some? then Some(files[m.value].id)
            else if l.Some? then Some(files[l.value].id)
            else if files == [] then None else Some(files[0].id)
  {
    ScanPrefersMain(files, 0, None, None);
  }

  lemma DeleteKeepsTracked(s: State, ids: seq<nat>)
    requires Tracked(s)
    ensures Tracked(Reduce(s, DeleteFileIds(ids)))
  {
    var keep := (f: File) => f.id !in ids;
    FilterKeeps(s.files, keep);
    FilterDistinct(s.files, keep);
    var files := Filter(s.files, keep);
    ScanFindsFile(files, 0, None, None);
    forall i | 0 <= i < |files| ensures files[i].id < s.fileId {
      assert files[i] in files;
    }
  }

  /** The same files, with other names or contents. */
  ghost predicate SameIds(files: seq<File>, changed: seq<File>) {
    |files| == |changed| && forall i :: 0 <= i < |files| ==> files[i].id == changed[i].id
  }

  lemma ChangeKeepsTracked(s: State, t: State)
    requires Tracked(s) && SameIds(s.files, t.files) && t.fileId == s.fileId
    requires t.active == s.active || (t.active.Some? && HasId(s.files, t.active.value))
    ensures Tracked(t)
  {
    if t.active.Some? {
      var k :| 0 <= k < |s.files| && s.files[k].id == t.active.value;
      assert t.files[k].id == t.active.value;
    }
  }

  lemma AddKeepsTracked(s: State, a: Action)
    requires Tracked(s) && (a.InitializeWith? || a.CreateFile? || a.AddMainFunction?)
    ensures Tracked(Reduce(s, a))
  {
    var t := Reduce(s, a);
    if t.fileId > s.fileId {
      assert t.files[|t.files| - 1].id == s.fileId;
    } else if a.AddMainFunction? {
      assert HasId(s.files, s.files[FindName(s.files, MAIN_RS).value].id);
    }
  }

  lemma ActivateKeepsTracked(s: State, name: string)
    requires Tracked(s)
    ensures Tracked(Reduce(s, ActivateFile(name)))
  {
    var k := FindName(s.files, name);
    if k.Some? {
      assert HasId(s.files, s.files[k.value].id);
    }
  }

  /** Every action whatever keeps the ids and the active file in order. */
  lemma ReduceKeepsTracked(s: State, a: Action)
    requires Tracked(s)
    ensures Tracked(Reduce(s, a))
  {
    match a
    case DeleteFileIds(ids) => DeleteKeepsTracked(s, ids);
    case InitializeWith(_, _) => AddKeepsTracked(s, a);
    case CreateFile(_) => AddKeepsTracked(s, a);
    case AddMainFunction => AddKeepsTracked(s, a);
    case ActivateFile(name) => ActivateKeepsTracked(s, name);
    case GistLoadFulfilled(Multiple(code)) => ScanFindsFile(Build(s.fileId, code), 0, None, None);
    case GistLoadPending =>
    case _ => ChangeKeepsTracked(s, Reduce(s, a));
  }

  // ------------------------------------------------------------- distinct names

  lemma RenameKeepsNames(s: State, a: Action)
    requires DistinctNames(s.files) && (a.RenameFile? || a.RenameDirectory?)
    ensures DistinctNames(Reduce(s, a).files)
  {
    var t := Reduce(s, a);
    if a.RenameFile? {
      if t != s {
        ValidInIsNew(s.files, a.rename.to);
      }
    } else if t != s {
      var names := Renamed(a.rename, Names(s.files));
      forall i, j | 0 <= i < j < |s.files| ensures t.files[i].name != t.files[j].name {
        assert names[i] == t.files[i].name && names[j] == t.files[j].name;
      }
    }
  }

  lemma AddKeepsNames(s: State, a: Action)
    requires DistinctNames(s.files) && (a.InitializeWith? || a.CreateFile? || a.AddMainFunction?)
    ensures DistinctNames(Reduce(s, a).files)
  {
    if (a.InitializeWith? || a.CreateFile?) && ValidIn(Names(s.files), a.name) {
      ValidInIsNew(s.files, a.name);
    }
  }

  /** Loading a gist does not check its names, so they are distinct exactly when they came distinct. */
  lemma GistNamesExactly(s: State, code: seq<(string, string)>)
    ensures DistinctNames(Reduce(s, GistLoadFulfilled(Multiple(code))).files) <==>
            Payload(GistLoadFulfilled(Multiple(code)))
  {
    var files := Build(s.fileId, code);
    forall i, j | 0 <= i < j < |code| && DistinctNames(files) ensures code[i].0 != code[j].0 {
      assert files[i].name != files[j].name;
    }
  }

  lemma ContentKeepsNames(s: State, a: Action)
    requires a.EditActiveFile? || a.AddCrateType? || a.FormatFulfilled? || a.ActivateFile?
    ensures Names(Reduce(s, a).files) == Names(s.files)
  {
    var t := Reduce(s, a);
    assert |t.files| == |s.files|;
    assert forall i :: 0 <= i < |s.files| ==> t.files[i].name == s.files[i].name;
  }

  lemma SameNamesDistinct(files: seq<File>, changed: seq<File>)
    requires Names(files) == Names(changed) && DistinctNames(files)
    ensures DistinctNames(changed)
  {
    forall i, j | 0 <= i < j < |changed| ensures changed[i].name != changed[j].name {
      assert changed[i].name == Names(files)[i] && changed[j].name == Names(files)[j];
    }
  }

  /** Every action keeps names distinct, but a gist only exactly when its own names are. */
  lemma ReduceKeepsNamesExactly(s: State, a: Action)
    requires DistinctNames(s.files)
    ensures DistinctNames(Reduce(s, a).files) <==> Payload(a)
  {
    match a
    case DeleteFileIds(ids) => FilterDistinct(s.files, (f: File) => f.id !in ids);
    case RenameFile(_) => RenameKeepsNames(s, a);
    case RenameDirectory(_) => RenameKeepsNames(s, a);
    case InitializeWith(_, _) => AddKeepsNames(s, a);
    case CreateFile(_) => AddKeepsNames(s, a);
    case AddMainFunction => AddKeepsNames(s, a);
    case GistLoadFulfilled(Multiple(code)) => GistNamesExactly(s, code);
    case GistLoadFulfilled(Single(_)) =>
    case GistLoadPending =>
    case _ =>
      ContentKeepsNames(s, a);
      SameNamesDistinct(s.files, Reduce(s, a).files);
  }

  // ------------------------------------------------------------- runs

  ghost predicate IsRun(states: seq<State>, actions: seq<Action>) {
    && |states| == |actions| + 1
    && states[0] == INITIAL
    && forall i :: 0 <= i < |actions| ==> Reduce(states[i], actions[i]) == states[i + 1]
  }

  lemma {:induction false} Domino(good: seq<bool>, fine: seq<bool>, n: nat)
    requires n < |good| == |fine| + 1 && good[0]
    requires forall i :: 0 <= i < |fine| && good[i] ==> good[i + 1] == fine[i]
    ensures (forall i :: 0 <= i <= n ==> good[i]) <==> (forall i :: 0 <= i < n ==> fine[i])
  {
    if n > 0 {
      Domino(good, fine, n - 1);
      assert good[n - 1] ==> good[n - 1 + 1] == fine[n - 1];
    }
  }

  /**
    After any actions from the initial state, gists of any kind included, ids are distinct and below
    the next id, and the active file, if there is one, is a file that exists.
   */
  lemma {:induction false} RunKeepsTracked(states: seq<State>, actions: seq<Action>, n: nat)
    requires IsRun(states, actions) && n < |states|
    ensures Tracked(states[n])
  {
    if n > 0 {
      RunKeepsTracked(states, actions, n - 1);
      assert Reduce(states[n - 1], actions[n - 1]) == states[n - 1 + 1];
      ReduceKeepsTracked(states[n - 1], actions[n - 1]);
    }
  }

  /** Names are distinct in every state of a run exactly when no gist in it brings two files of one name. */
  lemma RunKeepsNamesExactly(states: seq<State>, actions: seq<Action>)
    requires IsRun(states, actions)
    ensures (forall i :: 0 <= i < |states| ==> DistinctNames(states[i].files)) <==>
            (forall i :: 0 <= i < |actions| ==> Payload(actions[i]))
  {
    ghost var good := seq(|states|, i requires 0 <= i < |states| => DistinctNames(states[i].files));
    ghost var fine := seq(|actions|, i requires 0 <= i < |actions| => Payload(actions[i]));
    forall i | 0 <= i < |fine| && good[i] ensures good[i + 1] == fine[i] {
      ReduceKeepsNamesExactly(states[i], actions[i]);
    }
    Domino(good, fine, |actions|);
    assert forall i :: 0 <= i < |states| ==> good[i] == DistinctNames(states[i].files);
    assert forall i :: 0 <= i < |actions| ==> fine[i] == Payload(actions[i]);
  }

  // ------------------------------------------------------------- no file is also a directory

  /** The action does not make a file of what others need as a directory. */
  predicate Careful(s: State, a: Action) {
    match a
    case RenameDirectory(r) =>
      || r.from == r.to
      || !Accepts(r, Names(s.files))
      || forall i, j :: 0 <= i < |s.files| && 0 <= j < |s.files|
           && Under(r.from, s.files[i].name) && !Under(r.from, s.files[j].name)
           ==> !Collides(r, s.files[i].name, s.files[j].name)
    case AddMainFunction =>
      || FindName(s.files, MAIN_RS).Some?
      || forall i :: 0 <= i < |s.files| ==> !Comparable(Split(s.files[i].name), Split(MAIN_RS))
    case GistLoadFulfilled(Multiple(code)) => PrefixFree(seq(|code|, i requires 0 <= i < |code| => code[i].0))
    case _ => true
  }

  lemma PrefixFreeSnoc(files: seq<File>, f: File)
    requires PrefixFree(Names(files))
    ensures PrefixFree(Names(files + [f])) <==>
            forall i :: 0 <= i < |files| ==> !Comparable(Split(files[i].name), Split(f.name))
  {
    var names, longer := Names(files), Names(files + [f]);
    forall i | 0 <= i < |files| ensures longer[i] == names[i] == files[i].name {
    }
    assert longer[|files|] == f.name;
    if PrefixFree(longer) {
      forall i | 0 <= i < |files| ensures !Comparable(Split(files[i].name), Split(f.name)) {
        assert !Comparable(Split(longer[i]), Split(longer[|files|]));
      }
    }
  }

  predicate FilesApart(f: File, g: File) {
    !Comparable(Split(f.name), Split(g.name))
  }

  lemma PrefixFreePairwise(files: seq<File>)
    ensures PrefixFree(Names(files)) <==> Pairwise(files, FilesApart)
  {
    if PrefixFree(Names(files)) {
      forall i, j | 0 <= i < j < |files| ensures FilesApart(files[i], files[j]) {
        assert !Comparable(Split(Names(files)[i]), Split(Names(files)[j]));
      }
    }
  }

  lemma FilterKeepsPrefixFree(files: seq<File>, keep: File -> bool)
    requires PrefixFree(Names(files))
    ensures PrefixFree(Names(Filter(files, keep)))
  {
    PrefixFreePairwise(files);
    FilterPairwise(files, keep, FilesApart);
    PrefixFreePairwise(Filter(files, keep));
  }

  lemma RenameFilePrefixFree(s: State, r: Rename)
    requires PrefixFree(Names(s.files))
    ensures PrefixFree(Names(Reduce(s, RenameFile(r)).files))
  {
  }

  lemma RenameDirectoryPrefixFree(s: State, r: Rename)
    requires PrefixFree(Names(s.files))
    ensures PrefixFree(Names(Reduce(s, RenameDirectory(r)).files)) <==> Careful(s, RenameDirectory(r))
  {
    if r.from != r.to && Accepts(r, Names(s.files)) {
      RenameKeepsPrefixFreeExactly(r, Names(s.files));
      assert Names(Moved(s.files, r)) == Renamed(r, Names(s.files));
    }
  }

  lemma CreateFilePrefixFree(s: State, name: string)
    requires PrefixFree(Names(s.files))
    ensures PrefixFree(Names(Reduce(s, CreateFile(name)).files))
  {
    if ValidIn(Names(s.files), name) {
      forall i | 0 <= i < |s.files| ensures !Comparable(Split(s.files[i].name), Split(name)) {
        assert !Comparable(Split(Names(s.files)[i]), Split(name));
      }
      PrefixFreeSnoc(s.files, File(s.fileId, name, ""));
    }
  }

  lemma GistPrefixFree(s: State, code: seq<(string, string)>)
    ensures PrefixFree(Names(Reduce(s, GistLoadFulfilled(Multiple(code))).files)) <==>
            Careful(s, GistLoadFulfilled(Multiple(code)))
  {
    assert Names(Build(s.fileId, code)) == seq(|code|, i requires 0 <= i < |code| => code[i].0);
  }

  /** Which actions keep files and directories apart: exactly the careful ones, and most always are. */
  lemma ReducePrefixFreeExactly(s: State, a: Action)
    requires PrefixFree(Names(s.files))
    ensures PrefixFree(Names(Reduce(s, a).files)) <==> Careful(s, a)
  {
    match a
    case DeleteFileIds(ids) => FilterKeepsPrefixFree(s.files, (f: File) => f.id !in ids);
    case RenameFile(r) => RenameFilePrefixFree(s, r);
    case RenameDirectory(r) => RenameDirectoryPrefixFree(s, r);
    case InitializeWith(_, _) =>
    case CreateFile(name) => CreateFilePrefixFree(s, name);
    case AddMainFunction => PrefixFreeSnoc(s.files, File(s.fileId, MAIN_RS, HELLO_WORLD));
    case GistLoadFulfilled(Multiple(code)) => GistPrefixFree(s, code);
    case GistLoadFulfilled(Single(_)) =>
    case GistLoadPending =>
    case _ => ContentKeepsNames(s, a);
  }

  /** A run keeps files and directories apart in every state exactly when each of its actions is careful. */
  lemma RunPrefixFreeExactly(states: seq<State>, actions: seq<Action>)
    requires IsRun(states, actions)
    ensures (forall i :: 0 <= i < |states| ==> PrefixFree(Names(states[i].files))) <==>
            (forall i :: 0 <= i < |actions| ==> Careful(states[i], actions[i]))
  {
    var good := seq(|states|, i requires 0 <= i < |states| => PrefixFree(Names(states[i].files)));
    var fine := seq(|actions|, i requires 0 <= i < |actions| => Careful(states[i], actions[i]));
    forall i | 0 <= i < |fine| && good[i] ensures good[i + 1] == fine[i] {
      ReducePrefixFreeExactly(states[i], actions[i]);
    }
    Domino(good, fine, |actions|);
    assert forall i :: 0 <= i < |states| ==> good[i] == PrefixFree(Names(states[i].files));
    assert forall i :: 0 <= i < |actions| ==> fine[i] == Careful(states[i], actions[i]);
  }

  /** Doing `b` after `a` loses it. */
  ghost predicate ClashesAfter(a: Action, b: Action) {
    var s := Reduce(INITIAL, a);
    PrefixFree(Names(s.files)) && !PrefixFree(Names(Reduce(s, b).files))
  }

  lemma TwoSteps(a: Action, b: Action) returns (states: seq<State>, actions: seq<Action>)
    requires ClashesAfter(a, b)
    ensures IsRun(states, actions) && actions == [a, b]
    ensures PrefixFree(Names(states[1].files)) && !PrefixFree(Names(states[2].files))
  {
    var s := Reduce(INITIAL, a);
    states, actions := [INITIAL, s, Reduce(s, b)], [a, b];
  }

  lemma CreatedFirst(s: State, name: string)
    requires s == INITIAL && Canonical(Split(name)) && !Reserved(Split(name))
    ensures Reduce(s, CreateFile(name)) == State(1, Some(0), [File(0, name, "")])
    ensures PrefixFree(Names(Reduce(s, CreateFile(name)).files))
  {
  }

  lemma AppendedClashes(files: seq<File>, f: File)
    requires files != [] && Split(files[0].name) == Parents(Split(f.name))
    ensures !PrefixFree(Names(files + [f]))
  {
    var names := Names(files + [f]);
    assert names[0] == files[0].name && names[|files|] == f.name;
  }

  lemma AddsMain(s: State, f: File)
    requires FindName(s.files, f.name).None? && f == File(s.fileId, MAIN_RS, HELLO_WORLD)
    ensures Reduce(s, AddMainFunction).files == s.files + [f]
  {
  }

  lemma OtherName(files: seq<File>, name: string)
    requires |files| == 1 && Split(files[0].name) == Parents(Split(name))
    ensures FindName(files, name).None?
  {
  }

  lemma AddedMainClashes(name: string, main: File)
    requires main == File(1, MAIN_RS, HELLO_WORLD)
    requires Split(name) == Parents(Split(main.name)) && Canonical(Split(name)) && !Reserved(Split(name))
    ensures ClashesAfter(CreateFile(name), AddMainFunction)
  {
    var s := Reduce(INITIAL, CreateFile(name));
    CreatedFirst(INITIAL, name);
    OtherName(s.files, main.name);
    AddsMain(s, main);
    AppendedClashes(s.files, main);
  }

  /** After a file `src` has been created, adding a main function makes a directory of it too. */
  lemma AddedMainCanClash(name: string, main: File) returns (states: seq<State>, actions: seq<Action>)
    requires main == File(1, MAIN_RS, HELLO_WORLD)
    requires Split(name) == Parents(Split(main.name)) && Canonical(Split(name)) && !Reserved(Split(name))
    ensures IsRun(states, actions) && actions == [CreateFile(name), AddMainFunction]
    ensures PrefixFree(Names(states[1].files)) && !PrefixFree(Names(states[2].files))
  {
    AddedMainClashes(name, main);
    states, actions := TwoSteps(CreateFile(name), AddMainFunction);
  }

  /** A gist with a file and another below it is loaded as it is. */
  lemma GistCanClash(name: string, below: string, content: string) returns (states: seq<State>, actions: seq<Action>)
    requires Under(name, below)
    ensures IsRun(states, actions) && |actions| == 1 && actions[0].GistLoadFulfilled? && Payload(actions[0])
    ensures !PrefixFree(Names(states[1].files))
  {
    var a := GistLoadFulfilled(Multiple([(name, content), (below, content)]));
    states, actions := [INITIAL, Reduce(INITIAL, a)], [a];
    var names := Names(states[1].files);
    assert names[0] == name && names[1] == below;
  }

  // ------------------------------------------------------------- deleting

  function Ids(files: seq<File>, test: File -> bool): seq<nat> {
    if files == [] then []
    else (if test(files[0]) then [files[0].id] else []) + Ids(files[1..], test)
  }

  lemma {:induction false} IdsExactly(files: seq<File>, test: File -> bool, id: nat)
    ensures id in Ids(files, test) <==> exists i :: 0 <= i < |files| && files[i].id == id && test(files[i])
  {
    if files != [] {
      IdsExactly(files[1..], test, id);
      if i :| 0 <= i < |files| && files[i].id == id && test(files[i]) {
        assert i == 0 || files[1..][i - 1] == files[i];
      }
      if i :| 0 <= i < |files[1..]| && files[1..][i].id == id && test(files[1..][i]) {
        assert files[i + 1] == files[1..][i];
      }
    }
  }

  lemma {:induction false} FilterSame(files: seq<File>, a: File -> bool, b: File -> bool)
    requires forall f :: f in files ==> a(f) == b(f)
    ensures Filter(files, a) == Filter(files, b)
  {
    if files != [] {
      var n := |files| - 1;
      FilterSame(files[..n], a, b);
      assert files[n] in files;
    }
  }

  /** The action that a deletion dispatches. */
  function Delete(s: State, test: File -> bool): Action {
    DeleteFileIds(Ids(s.files, test))
  }

  function Not(test: File -> bool): File -> bool {
    (f: File) => !test(f)
  }

  /** Deleting by id deletes exactly the files that were meant, and leaves the others as they are. */
  lemma DeleteExactly(s: State, test: File -> bool)
    requires DistinctIds(s.files)
    ensures Reduce(s, Delete(s, test)).files == Filter(s.files, Not(test))
  {
    var ids := Ids(s.files, test);
    forall f | f in s.files ensures f.id !in ids <==> !test(f) {
      IdsExactly(s.files, test, f.id);
      var k :| 0 <= k < |s.files| && s.files[k] == f;
    }
    FilterSame(s.files, (f: File) => f.id !in ids, Not(test));
  }

  function Named(name: string): File -> bool {
    (f: File) => f.name == name
  }

  function InDirectory(dir: string): File -> bool {
    (f: File) => Under(dir, f.name)
  }

  function Anything(): File -> bool {
    (f: File) => true
  }

  lemma DeleteFileExactly(s: State, name: string, f: File)
    requires DistinctIds(s.files)
    ensures f in Reduce(s, Delete(s, Named(name))).files <==> f in s.files && f.name != name
  {
    DeleteExactly(s, Named(name));
    FilterKeeps(s.files, Not(Named(name)));
  }

  lemma DeleteDirectoryExactly(s: State, dir: string, f: File)
    requires DistinctIds(s.files)
    ensures f in Reduce(s, Delete(s, InDirectory(dir))).files <==> f in s.files && !Under(dir, f.name)
  {
    DeleteExactly(s, InDirectory(dir));
    FilterKeeps(s.files, Not(InDirectory(dir)));
  }

  lemma {:induction false} FilterNone(files: seq<File>, keep: File -> bool)
    requires forall f :: f in files ==> !keep(f)
    ensures Filter(files, keep) == []
  {
    if files != [] {
      assert files[|files| - 1] in files;
      FilterNone(files[..|files| - 1], keep);
    }
  }

  /** Deleting everything needs no condition: an id that two files shared would go with both. */
  lemma DeleteAllExactly(s: State)
    ensures Reduce(s, Delete(s, Anything())) == State(s.fileId, None, [])
  {
    var ids := Ids(s.files, Anything());
    var keep := (f: File) => f.id !in ids;
    forall f | f in s.files ensures !keep(f) {
      IdsExactly(s.files, Anything(), f.id);
    }
    FilterNone(s.files, keep);
  }
}
