/** What each of the editor's actions does to the names, the contents and the active file. */
module FileEdits {
  import opened FileState
  import opened FilesRules
  import opened Paths
  import opened Wrappers

  /** The same files in the same order, apart from what `changed` says of each. */
  ghost predicate Changes(s: State, t: State, changed: (File, File) -> bool) {
    && t.fileId == s.fileId && |t.files| == |s.files|
    && forall i :: 0 <= i < |s.files| ==> s.files[i].id == t.files[i].id && changed(s.files[i], t.files[i])
  }

  /** Editing gives the active file its new content, and changes nothing else. */
  lemma EditExactly(s: State, content: string)
    requires DistinctIds(s.files)
    ensures var t := Reduce(s, EditActiveFile(content));
            && t.active == s.active
            && Changes(s, t, (f: File, g: File) =>
                 g.name == f.name && g.content == if s.active == Some(f.id) then content else f.content)
  {
  }

  /** The name can be taken: canonical, not reserved, and not comparable with a file's. */
  predicate IsFree(s: State, name: string) {
    && Canonical(Split(name)) && Split(name) != ["Cargo.toml"] && Split(name) != ["Playground.toml"]
    && forall f :: f in s.files ==> !Comparable(Split(f.name), Split(name))
  }

  lemma FreeIsValid(s: State, name: string)
    ensures ValidIn(Names(s.files), name) <==> IsFree(s, name)
  {
    if IsFree(s, name) {
      forall i | 0 <= i < |s.files| ensures !Comparable(Split(Names(s.files)[i]), Split(name)) {
        assert s.files[i] in s.files;
      }
    }
    if ValidIn(Names(s.files), name) {
      forall f | f in s.files ensures !Comparable(Split(f.name), Split(name)) {
        var i :| 0 <= i < |s.files| && s.files[i] == f;
        assert Names(s.files)[i] == f.name;
      }
    }
  }

  /** A new id: no file has it, and it is not given out again. */
  predicate IsNew(s: State, t: State, id: nat) {
    id < t.fileId && forall f :: f in s.files ==> f.id != id
  }

  /** A file is created, empty and active, after the others, exactly when its name is free. */
  lemma CreateExactly(s: State, name: string)
    requires Tracked(s)
    ensures var t := Reduce(s, CreateFile(name));
            if IsFree(s, name) then
              exists id: nat :: IsNew(s, t, id) && t.active == Some(id) && t.files == s.files + [File(id, name, "")]
            else t == s
  {
    FreeIsValid(s, name);
    if IsFree(s, name) {
      assert IsNew(s, Reduce(s, CreateFile(name)), s.fileId);
    }
  }

  /** The editor is started over with one file, active, exactly when its name is free. */
  lemma InitializeExactly(s: State, name: string, content: string)
    requires Tracked(s)
    ensures var t := Reduce(s, InitializeWith(name, content));
            if IsFree(s, name) then
              exists id: nat :: IsNew(s, t, id) && t.active == Some(id) && t.files == [File(id, name, content)]
            else t == s
  {
    FreeIsValid(s, name);
    if IsFree(s, name) {
      assert IsNew(s, Reduce(s, InitializeWith(name, content)), s.fileId);
    }
  }

  /** A file of the old name takes the new one exactly when that is another one and free. */
  lemma RenameExactly(s: State, r: Rename)
    requires DistinctNames(s.files)
    ensures var t := Reduce(s, RenameFile(r));
            && t.active == s.active
            && Changes(s, t, (f: File, g: File) =>
                 && g.content == f.content
                 && g.name == if f.name == r.from && r.from != r.to && IsFree(s, r.to) then r.to else f.name)
  {
    FreeIsValid(s, r.to);
  }

  /** The positions of the files that pass the test, in order. */
  ghost predicate Selects(ks: seq<int>, files: seq<File>, kept: seq<File>, keep: File -> bool) {
    && |ks| == |kept|
    && (forall j :: 0 <= j < |ks| ==> 0 <= ks[j] < |files| && kept[j] == files[ks[j]] && keep(kept[j]))
    && (forall j, k :: 0 <= j < k < |ks| ==> ks[j] < ks[k])
    && (forall i :: 0 <= i < |files| && keep(files[i]) ==> i in ks)
  }

  lemma {:induction false} FilterSelects(files: seq<File>, keep: File -> bool) returns (ks: seq<int>)
    ensures Selects(ks, files, Filter(files, keep), keep)
  {
    if files == [] {
      ks := [];
    } else {
      var n := |files| - 1;
      var before := FilterSelects(files[..n], keep);
      ks := before + if keep(files[n]) then [n] else [];
      assert Filter(files, keep) == Filter(files[..n], keep) + if keep(files[n]) then [files[n]] else [];
      forall i | 0 <= i < |files| && keep(files[i]) ensures i in ks {
        assert i < n ==> files[..n][i] == files[i] && i in before;
      }
    }
  }

  /** Exactly the files of these ids go; the active file stays active, or the main file or else the first becomes so. */
  lemma DeletionExactly(s: State, ids: seq<nat>) returns (ks: seq<int>)
    ensures var t := Reduce(s, DeleteFileIds(ids));
            && Selects(ks, s.files, t.files, (f: File) => f.id !in ids)
            && t.fileId == s.fileId
            && t.active == if s.active.Some? && exists f :: f in t.files && Some(f.id) == s.active then s.active
                           else SelectActiveFile(t.files)
  {
    ks := FilterSelects(s.files, (f: File) => f.id !in ids);
    var t := Reduce(s, DeleteFileIds(ids));
    assert forall i :: 0 <= i < |t.files| ==> t.files[i] in t.files;
  }

  /** A directory is renamed exactly when the new names are distinct and valid, and then in every file's name. */
  lemma RenameDirectoryExactly(s: State, r: Rename)
    ensures var t := Reduce(s, RenameDirectory(r));
            && t.active == s.active
            && Changes(s, t, (f: File, g: File) =>
                 && g.content == f.content
                 && g.name == if Accepts(r, Names(s.files)) then PerformDirRename(r, f.name) else f.name)
  {
    if r.from == r.to {
      forall i | 0 <= i < |s.files| ensures PerformDirRename(r, s.files[i].name) == s.files[i].name {
        SameDirectory(r, s.files[i].name);
      }
    }
  }

  lemma SameDirectory(r: Rename, name: string)
    requires r.from == r.to
    ensures PerformDirRename(r, name) == name
  {
    RenameParts(r, name);
    if Under(r.from, name) {
      NameIsDirectoryAndRest(r.from, name);
      SplitIsInjective(PerformDirRename(r, name), name);
    }
  }

  /** Activating by name makes a file of that name active, if there is one. */
  lemma ActivateExactly(s: State, name: string)
    ensures var t := Reduce(s, ActivateFile(name));
            && t.files == s.files && t.fileId == s.fileId
            && if exists f :: f in s.files && f.name == name
               then exists f :: f in s.files && f.name == name && t.active == Some(f.id)
               else t.active == s.active
  {
    var k := FindName(s.files, name);
    if k.Some? {
      assert s.files[k.value] in s.files;
    }
  }

  /** Then there is a main file, which is active; if there was none, a new one that says hello is the last. */
  lemma AddMainExactly(s: State, name: string)
    requires Tracked(s) && name == MAIN_RS
    ensures var t := Reduce(s, AddMainFunction);
            if exists f :: f in s.files && f.name == name then
              t.files == s.files && exists f :: f in s.files && f.name == name && t.active == Some(f.id)
            else
              exists id: nat ::
                IsNew(s, t, id) && t.active == Some(id) && t.files == s.files + [File(id, name, HELLO_WORLD)]
  {
    var k := FindName(s.files, name);
    if k.Some? {
      assert s.files[k.value] in s.files;
    } else {
      assert IsNew(s, Reduce(s, AddMainFunction), s.fileId);
    }
  }

  /** The library file gets the attribute as its first line. */
  lemma AddCrateTypeExactly(s: State, crateType: string)
    requires DistinctNames(s.files)
    ensures var t := Reduce(s, AddCrateType(crateType));
            && t.active == s.active
            && Changes(s, t, (f: File, g: File) =>
                 && g.name == f.name
                 && g.content == if f.name == LIB_RS then "#![crate_type = \"" + crateType + "\"]\n" + f.content
                                 else f.content)
  {
  }

  /** Of the code's files, the one at `j` is the first of that name. */
  predicate IsFirst(code: seq<(string, string)>, name: string, j: int) {
    0 <= j < |code| && code[j].0 == name && forall k :: 0 <= k < j ==> code[k].0 != name
  }

  lemma {:induction false} FindCodeExactly(code: seq<(string, string)>, name: string)
    ensures FindCode(code, name).Some? ==> exists j :: IsFirst(code, name, j) && FindCode(code, name).value == code[j].1
    ensures FindCode(code, name).None? ==> forall j :: 0 <= j < |code| ==> code[j].0 != name
  {
    if code != [] {
      if code[0].0 == name {
        assert IsFirst(code, name, 0);
      } else {
        FindCodeExactly(code[1..], name);
        if FindCode(code, name).Some? {
          var j :| IsFirst(code[1..], name, j) && FindCode(code, name).value == code[1..][j].1;
          assert forall k :: 0 < k < j + 1 ==> code[k] == code[1..][k - 1];
          assert IsFirst(code, name, j + 1);
        } else {
          assert forall j :: 0 < j < |code| ==> code[j] == code[1..][j - 1];
        }
      }
    }
  }

  /** The file has the content of the first formatted file of its name, or its own if there is none. */
  ghost predicate IsFormatted(code: seq<(string, string)>, f: File, g: File) {
    && g.id == f.id && g.name == f.name
    && if exists j :: IsFirst(code, f.name, j)
       then exists j :: IsFirst(code, f.name, j) && g.content == code[j].1
       else g.content == f.content
  }

  lemma FormattedExactly(f: File, code: seq<(string, string)>)
    ensures IsFormatted(code, f, FormattedFile(f, code))
  {
    FindCodeExactly(code, f.name);
  }

  lemma FormatExactly(s: State, code: seq<(string, string)>)
    ensures var t := Reduce(s, FormatFulfilled(Multiple(code)));
            t.active == s.active && Changes(s, t, (f: File, g: File) => IsFormatted(code, f, g))
  {
    forall i | 0 <= i < |s.files| ensures IsFormatted(code, s.files[i], Formatted(s.files, code)[i]) {
      FormattedExactly(s.files[i], code);
    }
  }

  /** A gist replaces all files by its own, in order, under new ids; the main file or else the first is active. */
  lemma GistExactly(s: State, code: seq<(string, string)>)
    requires Tracked(s)
    ensures var t := Reduce(s, GistLoadFulfilled(Multiple(code)));
            && |t.files| == |code| && DistinctIds(t.files) && t.active == SelectActiveFile(t.files)
            && forall i :: 0 <= i < |code| ==>
                 t.files[i].name == code[i].0 && t.files[i].content == code[i].1 && IsNew(s, t, t.files[i].id)
  {
  }

  /** Code of a single file, and a gist that is on its way, leave no trace here but an empty editor for the latter. */
  lemma SingleChangesNothing(s: State, text: string)
    ensures Reduce(s, GistLoadFulfilled(Single(text))) == s == Reduce(s, FormatFulfilled(Single(text)))
    ensures Reduce(s, GistLoadPending) == State(s.fileId, None, [])
  {
  }
}
