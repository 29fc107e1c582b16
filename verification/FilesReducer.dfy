/** The reducers themselves, which change the draft state in place; `FileState.Reduce` is what they come to. */
module FilesReducer {
  import opened FileState
  import opened FilesRules
  import opened Wrappers

  method ScanForActive(files: seq<File>) returns (active: Option<nat>)
    ensures active == SelectActiveFile(files)
  {
    var main: Option<nat> := None;
    var lib: Option<nat> := None;
    var i := 0;
    while i < |files|
      invariant i <= |files| && Scan(files, i, main, lib) == SelectActiveFile(files)
    {
      var f := files[i];
      if main.Some? && lib.Some? {
        break;
      }
      if f.name == MAIN_RS {
        main := Some(f.id);
      } else if f.name == LIB_RS {
        lib := Some(f.id);
      }
      i := i + 1;
    }
    if main.Some? {
      return main;
    }
    if lib.Some? {
      return lib;
    }
    return if files == [] then None else Some(files[0].id);
  }

  class Draft {
    var fileId: nat
    var active: Option<nat>
    var files: seq<File>

    ghost function View(): State
      reads this
    {
      State(fileId, active, files)
    }

    constructor ()
      ensures View() == INITIAL
    {
      fileId, active, files := 0, None, [];
    }

    method BuildFile(name: string, content: string) returns (file: File)
      modifies this`fileId
      ensures file == File(old(fileId), name, content) && fileId == old(fileId) + 1
    {
      file := File(fileId, name, content);
      fileId := fileId + 1;
    }

    method IsFilenameValid(name: string) returns (valid: bool)
      ensures valid <==> ValidIn(Names(files), name)
    {
      var r := MakeValidatedFilePathIn(Names(files), name);
      return r.Ok?;
    }

    method InitializeWith(name: string, content: string)
      modifies this
      ensures View() == Reduce(old(View()), Action.InitializeWith(name, content))
    {
      var valid := IsFilenameValid(name);
      if !valid {
        return;
      }
      var newFile := BuildFile(name, content);
      files := [newFile];
      active := Some(newFile.id);
    }

    method EditActiveFile(content: string)
      modifies this
      ensures View() == Reduce(old(View()), Action.EditActiveFile(content))
    {
      var wanted := active;
      var k := Find(files, (f: File) => Some(f.id) == wanted);
      if k.Some? {
        files := files[k.value := files[k.value].(content := content)];
      }
    }

    method CreateFile(name: string)
      modifies this
      ensures View() == Reduce(old(View()), Action.CreateFile(name))
    {
      var valid := IsFilenameValid(name);
      if !valid {
        return;
      }
      var newFile := BuildFile(name, "");
      files := files + [newFile];
      active := Some(newFile.id);
    }

    method RenameFile(r: Rename)
      modifies this
      ensures View() == Reduce(old(View()), Action.RenameFile(r))
    {
      var k := FindName(files, r.from);
      if k.None? || r.from == r.to {
        return;
      }
      var valid := IsFilenameValid(r.to);
      if !valid {
        return;
      }
      files := files[k.value := files[k.value].(name := r.to)];
    }

    method Fixup()
      modifies this`active
      ensures View() == FixupAfterDeletion(old(View()))
    {
      var wanted := active;
      var k := Find(files, (f: File) => Some(f.id) == wanted);
      if k.None? {
        active := ScanForActive(files);
      }
    }

    method DeleteFileIds(ids: seq<nat>)
      modifies this
      ensures View() == Reduce(old(View()), Action.DeleteFileIds(ids))
    {
      files := Filter(files, (f: File) => f.id !in ids);
      Fixup();
    }

    method RenameDirectory(r: Rename)
      modifies this
      ensures View() == Reduce(old(View()), Action.RenameDirectory(r))
    {
      if r.from == r.to {
        return;
      }
      var error := MakeValidatedDirRenamer(Names(files), r);
      if error.Some? {
        return;
      }
      MoveFiles(r);
    }

    method MoveFiles(r: Rename)
      modifies this`files
      ensures files == Moved(old(files), r)
    {
      for i := 0 to |files|
        invariant |files| == |old(files)|
        invariant forall k :: 0 <= k < i ==> files[k] == Moved(old(files), r)[k]
        invariant forall k :: i <= k < |files| ==> files[k] == old(files)[k]
      {
        files := files[i := files[i].(name := PerformDirRename(r, files[i].name))];
      }
    }

    method ActivateFile(name: string)
      modifies this
      ensures View() == Reduce(old(View()), Action.ActivateFile(name))
    {
      var k := FindName(files, name);
      if k.Some? {
        active := Some(files[k.value].id);
      }
    }

    method AddMainFunction()
      modifies this
      ensures View() == Reduce(old(View()), Action.AddMainFunction)
    {
      var existing := FindName(files, MAIN_RS);
      var file;
      if existing.Some? {
        file := files[existing.value];
      } else {
        file := BuildFile(MAIN_RS, HELLO_WORLD);
        files := files + [file];
      }
      active := Some(file.id);
    }

    method AddCrateType(crateType: string)
      modifies this
      ensures View() == Reduce(old(View()), Action.AddCrateType(crateType))
    {
      var k := FindName(files, LIB_RS);
      if k.Some? {
        var content := "#![crate_type = \"" + crateType + "\"]\n" + files[k.value].content;
        files := files[k.value := files[k.value].(content := content)];
      }
    }

    method GistLoadPending()
      modifies this
      ensures View() == Reduce(old(View()), Action.GistLoadPending)
    {
      active := None;
      files := [];
    }

    method GistLoadFulfilled(code: Code)
      modifies this
      ensures View() == Reduce(old(View()), Action.GistLoadFulfilled(code))
    {
      if code.Multiple? {
        var built: seq<File> := [];
        for i := 0 to |code.codeFiles|
          invariant fileId == old(fileId) + i && active == old(active) && files == old(files)
          invariant built == Build(old(fileId), code.codeFiles)[..i]
        {
          var file := BuildFile(code.codeFiles[i].0, code.codeFiles[i].1);
          built := built + [file];
        }
        assert built == Build(old(fileId), code.codeFiles);
        files := built;
        active := ScanForActive(files);
      }
    }

    method FormatFulfilled(code: Code)
      modifies this
      ensures View() == Reduce(old(View()), Action.FormatFulfilled(code))
    {
      if code.Multiple? {
        FormatFiles(code.codeFiles);
      }
    }

    method FormatFiles(code: seq<(string, string)>)
      modifies this`files
      ensures files == Formatted(old(files), code)
    {
      for i := 0 to |files|
        invariant |files| == |old(files)|
        invariant forall k :: 0 <= k < i ==> files[k] == Formatted(old(files), code)[k]
        invariant forall k :: i <= k < |files| ==> files[k] == old(files)[k]
      {
        var content := FindCode(code, files[i].name);
        if content.Some? {
          files := files[i := files[i].(content := content.value)];
        }
      }
    }

    /** The reducer: whatever the action, ids and active file stay in order; names do unless a gist repeats one. */
    method Dispatch(a: Action)
      modifies this
      ensures View() == Reduce(old(View()), a)
      ensures old(Tracked(View())) ==> Tracked(View())
      ensures old(DistinctNames(files)) ==> (DistinctNames(files) <==> Payload(a))
    {
      match a {
        case InitializeWith(name, content) => InitializeWith(name, content);
        case EditActiveFile(content) => EditActiveFile(content);
        case CreateFile(name) => CreateFile(name);
        case RenameFile(r) => RenameFile(r);
        case DeleteFileIds(ids) => DeleteFileIds(ids);
        case RenameDirectory(r) => RenameDirectory(r);
        case ActivateFile(name) => ActivateFile(name);
        case AddMainFunction => AddMainFunction();
        case AddCrateType(crateType) => AddCrateType(crateType);
        case GistLoadPending => GistLoadPending();
        case GistLoadFulfilled(code) => GistLoadFulfilled(code);
        case FormatFulfilled(code) => FormatFulfilled(code);
      }
      if old(Tracked(View())) {
        ReduceKeepsTracked(old(View()), a);
      }
      if old(DistinctNames(files)) {
        ReduceKeepsNamesExactly(old(View()), a);
      }
    }
  }
}
