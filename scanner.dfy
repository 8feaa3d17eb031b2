/** The tree scan: `ProcessDirectory`, `WriteDirectories` and `WriteFiles`
    turn a directory listing into a `DirectoryData` tree with one child per
    subdirectory and one keyed entry per file that is not a `.meta` sidecar. */
module Scanner {
  import opened Wrappers
  import opened Strings
  import opened PropertyNames

  /** The directory separator that `Path.Combine` inserts. */
  const Separator: char := '/'

  /** The suffix of the editor's per-asset sidecar files. */
  const MetaSuffix: string := ".meta"

  /** A directory as the file system lists it: its own name, its
      subdirectories and the names of its files, in enumeration order. */
  datatype FsDir = FsDir(name: string, subdirs: seq<FsDir>, files: seq<string>)

  /** One `NameToPath` pair: the sanitised property name and the full path. */
  datatype Entry = Entry(key: string, path: string)

  /** The `DirectoryData` struct; `nameToPath` lists the dictionary's pairs
      in insertion order. */
  datatype DirectoryData = DirectoryData(name: string, directories: seq<DirectoryData>, nameToPath: seq<Entry>)

  /** What aborts a run: a name without any ASCII letter or digit (the
      sanitiser's `words[0]` throws), or `Dictionary.Add` meeting a key twice,
      or a path shorter than the root that `string.Remove` is asked to cut. */
  datatype Error =
    | UnnamableFile(file: string)
    | DuplicateKey(key: string, path: string)
    | UnnamableDirectory(directory: string)
    | PathOutsideRoot(path: string)

  /** `Path.Combine(dir, name)`. */
  function Combine(dir: string, name: string): string {
    dir + [Separator] + name
  }

  /** The files of a directory that `WriteFiles` keeps: those whose full
      path does not end with ".meta". */
  function Assets(files: seq<string>, dirPath: string): (assets: seq<string>)
    ensures |assets| <= |files|
    ensures forall f <- assets :: f in files && !EndsWith(Combine(dirPath, f), MetaSuffix)
    ensures forall f <- files :: !EndsWith(Combine(dirPath, f), MetaSuffix) ==> f in assets
  {
    if files == [] then []
    else (if EndsWith(Combine(dirPath, files[0]), MetaSuffix) then [] else [files[0]])
         + Assets(files[1..], dirPath)
  }

  /** The dictionary key of a file: the sanitised name without extension. */
  function KeyOf(file: string): Option<string> {
    PropertyName(StripExtension(file))
  }

  function Keys(entries: seq<Entry>): seq<string> {
    seq(|entries|, i requires 0 <= i < |entries| => entries[i].key)
  }

  /** Adds the files one by one, as `Dictionary.Add` does: a file whose key
      is already present aborts the whole run. */
  function AddFiles(entries: seq<Entry>, assets: seq<string>, dirPath: string): Result<seq<Entry>, Error>
    decreases |assets|
  {
    if assets == [] then Success(entries)
    else
      var path := Combine(dirPath, assets[0]);
      match KeyOf(assets[0])
      case None => Failure(UnnamableFile(path))
      case Some(key) =>
        if key in Keys(entries) then Failure(DuplicateKey(key, path))
        else AddFiles(entries + [Entry(key, path)], assets[1..], dirPath)
  }

  /** The `NameToPath` dictionary of one directory. */
  function FileEntries(dir: FsDir, dirPath: string): Result<seq<Entry>, Error> {
    AddFiles([], Assets(dir.files, dirPath), dirPath)
  }

  /** A freshly listed subdirectory: only its name is known. */
  function Shell(name: string): DirectoryData {
    DirectoryData(name, [], [])
  }

  /** `ProcessDirectory` as a function: the files first, then every
      subdirectory in turn, the first failure aborting the rest. */
  function Build(dir: FsDir, dirPath: string, name: string): Result<DirectoryData, Error>
    decreases dir, 0
  {
    var nameToPath :- FileEntries(dir, dirPath);
    var directories :- BuildChildren(dir.subdirs, dirPath);
    Success(DirectoryData(name, directories, nameToPath))
  }

  /** A subdirectory is processed under its own path and named after it. */
  function BuildChild(sub: FsDir, dirPath: string): Result<DirectoryData, Error>
    decreases sub, 1
  {
    Build(sub, Combine(dirPath, sub.name), sub.name)
  }

  function BuildChildren(subdirs: seq<FsDir>, dirPath: string): Result<seq<DirectoryData>, Error>
    decreases subdirs, 0
  {
    if subdirs == [] then Success([])
    else
      var first :- BuildChild(subdirs[0], dirPath);
      var rest :- BuildChildren(subdirs[1..], dirPath);
      Success([first] + rest)
  }

  lemma BuildUnfold(dir: FsDir, dirPath: string, name: string)
    ensures var files := FileEntries(dir, dirPath);
      var children := BuildChildren(dir.subdirs, dirPath);
      Build(dir, dirPath, name)
        == if files.Failure? then Failure(files.error)
           else if children.Failure? then Failure(children.error)
           else Success(DirectoryData(name, children.value, files.value))
  {
  }

  lemma BuildChildrenUnfold(subdirs: seq<FsDir>, dirPath: string)
    requires subdirs != []
    ensures var first := BuildChild(subdirs[0], dirPath);
      BuildChildren(subdirs, dirPath)
        == if first.Failure? then Failure(first.error)
           else Prepend([first.value], BuildChildren(subdirs[1..], dirPath))
  {
  }

  // ---------------------------------------------------------------------
  // The scan as the source writes it

  /** `WriteDirectories`: a fresh array with one named shell per subdirectory. */
  method WriteDirectories(dir: FsDir) returns (directories: array<DirectoryData>)
    ensures fresh(directories)
    ensures directories.Length == |dir.subdirs|
    ensures forall i :: 0 <= i < directories.Length ==> directories[i] == Shell(dir.subdirs[i].name)
  {
    directories := new DirectoryData[|dir.subdirs|];
    for i := 0 to |dir.subdirs|
      invariant forall j :: 0 <= j < i ==> directories[j] == Shell(dir.subdirs[j].name)
    {
      directories[i] := Shell(dir.subdirs[i].name);
    }
  }

  /** `WriteFiles`: the dictionary filled file by file. */
  method WriteFiles(dir: FsDir, dirPath: string) returns (r: Result<seq<Entry>, Error>)
    ensures r == FileEntries(dir, dirPath)
  {
    var filePaths := Assets(dir.files, dirPath);
    var nameToPath: seq<Entry> := [];
    for i := 0 to |filePaths|
      invariant FileEntries(dir, dirPath) == AddFiles(nameToPath, filePaths[i..], dirPath)
    {
      assert filePaths[i..][1..] == filePaths[i + 1..];
      var key := GeneratePropertyName(StripExtension(filePaths[i]));
      var path := Combine(dirPath, filePaths[i]);
      if key.None? {
        return Failure(UnnamableFile(path));
      }
      if key.value in Keys(nameToPath) {
        return Failure(DuplicateKey(key.value, path));
      }
      nameToPath := nameToPath + [Entry(key.value, path)];
    }
    return Success(nameToPath);
  }

  /** `ProcessDirectory`: the shells of the subdirectories, then the files,
      then each shell replaced in place by its processed directory. */
  method ProcessDirectory(dir: FsDir, dirPath: string, name: string) returns (r: Result<DirectoryData, Error>)
    ensures r == Build(dir, dirPath, name)
    decreases dir
  {
    BuildUnfold(dir, dirPath, name);
    var directories := WriteDirectories(dir);
    var nameToPath := WriteFiles(dir, dirPath);
    if nameToPath.Failure? {
      return Failure(nameToPath.error);
    }
    assert dir.subdirs[0..] == dir.subdirs;
    PrependEmpty(BuildChildren(dir.subdirs, dirPath));
    for i := 0 to directories.Length
      invariant BuildChildren(dir.subdirs, dirPath)
             == Prepend(directories[..i], BuildChildren(dir.subdirs[i..], dirPath))
      invariant forall j :: i <= j < directories.Length ==> directories[j] == Shell(dir.subdirs[j].name)
    {
      var subdirs := dir.subdirs[i..];
      assert subdirs[0] == dir.subdirs[i] && subdirs[1..] == dir.subdirs[i + 1..];
      BuildChildrenUnfold(subdirs, dirPath);
      var child := ProcessDirectory(dir.subdirs[i], Combine(dirPath, directories[i].name), directories[i].name);
      if child.Failure? {
        return Failure(child.error);
      }
      ghost var done := directories[..i];
      directories[i] := child.value;
      assert directories[..i + 1] == done + [child.value];
      PrependTwice(done, [child.value], BuildChildren(dir.subdirs[i + 1..], dirPath));
    }
    assert dir.subdirs[directories.Length..] == [];
    assert directories[..directories.Length] == directories[..];
    assert BuildChildren(dir.subdirs, dirPath) == Success(directories[..] + []);
    assert directories[..] + [] == directories[..];
    return Success(DirectoryData(name, directories[..], nameToPath.value));
  }

  // ---------------------------------------------------------------------
  // What one directory's dictionary holds

  /** Every file has a key. */
  predicate Keyable(assets: seq<string>) {
    forall i :: 0 <= i < |assets| ==> KeyOf(assets[i]).Some?
  }

  /** No two files share a key. */
  predicate DistinctKeys(assets: seq<string>) {
    forall i, j :: 0 <= i < j < |assets| ==> KeyOf(assets[i]) != KeyOf(assets[j])
  }

  /** No file's key is already among `entries`. */
  predicate FreshKeys(entries: seq<Entry>, assets: seq<string>) {
    forall i :: 0 <= i < |assets| && KeyOf(assets[i]).Some? ==> KeyOf(assets[i]).value !in Keys(entries)
  }

  /** One entry per file, keyed by its sanitised stem and holding its full path. */
  function EntriesFor(assets: seq<string>, dirPath: string): seq<Entry>
    requires Keyable(assets)
  {
    seq(|assets|, i requires 0 <= i < |assets| && Keyable(assets) => Entry(KeyOf(assets[i]).value, Combine(dirPath, assets[i])))
  }

  lemma {:induction false} AddFilesSpec(entries: seq<Entry>, assets: seq<string>, dirPath: string)
    ensures AddFiles(entries, assets, dirPath).Success?
        <==> Keyable(assets) && DistinctKeys(assets) && FreshKeys(entries, assets)
    ensures AddFiles(entries, assets, dirPath).Success? ==>
      Keyable(assets) && AddFiles(entries, assets, dirPath).value == entries + EntriesFor(assets, dirPath)
    decreases |assets|
  {
    if assets != [] {
      var path := Combine(dirPath, assets[0]);
      var rest := assets[1..];
      assert forall i :: 0 <= i < |rest| ==> rest[i] == assets[i + 1];
      match KeyOf(assets[0])
      case None =>
      case Some(key) =>
        var more := entries + [Entry(key, path)];
        assert Keys(more) == Keys(entries) + [key];
        AddFilesSpec(more, rest, dirPath);
        if key !in Keys(entries) {
          if AddFiles(more, rest, dirPath).Success? {
            assert Keyable(assets);
            assert EntriesFor(assets, dirPath) == [Entry(key, path)] + EntriesFor(rest, dirPath);
          }
          if Keyable(assets) && DistinctKeys(assets) && FreshKeys(entries, assets) {
            assert FreshKeys(more, rest) by {
              forall i | 0 <= i < |rest|
                ensures KeyOf(rest[i]).value !in Keys(more)
              {
                assert KeyOf(assets[0]) != KeyOf(assets[i + 1]);
              }
            }
          }
        }
    }
  }

  /** `WriteFiles` succeeds exactly when every non-sidecar file has a key
      and no two share one; then the dictionary holds one entry per such
      file, in order, keyed by its sanitised stem and mapped to its full
      path, and no entry's path ends with ".meta". */
  lemma FileEntriesSpec(dir: FsDir, dirPath: string)
    ensures var assets := Assets(dir.files, dirPath);
      FileEntries(dir, dirPath).Success? <==> Keyable(assets) && DistinctKeys(assets)
    ensures var assets := Assets(dir.files, dirPath);
      FileEntries(dir, dirPath).Success? ==>
        var entries := FileEntries(dir, dirPath).value;
        && |entries| == |assets|
        && (forall i :: 0 <= i < |assets| ==> entries[i] == Entry(KeyOf(assets[i]).value, Combine(dirPath, assets[i])))
        && (forall e <- entries :: !EndsWith(e.path, MetaSuffix))
  {
    var assets := Assets(dir.files, dirPath);
    AddFilesSpec([], assets, dirPath);
    assert Keys([]) == [];
    assert FreshKeys([], assets);
    if FileEntries(dir, dirPath).Success? {
      assert [] + EntriesFor(assets, dirPath) == EntriesFor(assets, dirPath);
      NoMetaEntries(assets, dirPath, dir.files);
    }
  }

  lemma NoMetaEntries(assets: seq<string>, dirPath: string, files: seq<string>)
    requires assets == Assets(files, dirPath) && Keyable(assets)
    ensures forall e <- EntriesFor(assets, dirPath) :: !EndsWith(e.path, MetaSuffix)
  {
    var entries := EntriesFor(assets, dirPath);
    forall e <- entries ensures !EndsWith(e.path, MetaSuffix) {
      var i :| 0 <= i < |entries| && entries[i] == e;
      assert assets[i] in assets;
    }
  }

  lemma KeyExamples()
    ensures KeyOf("a.png") == Some("A") && KeyOf("A.wav") == Some("A")
  {
    assert StripExtension("a.png") == "a";
    assert StripExtension("A.wav") == "A";
    assert Cased("a", true) == "A";
    assert Cased("A", true) == "A";
    assert Alnums("a") == "a" && Alnums("A") == "A";
    PropertyNameFromCased("a", "A");
    PropertyNameFromCased("A", "A");
    assert "" + "A" == "A";
  }

  lemma NoSidecars(files: seq<string>, dirPath: string)
    requires files == ["a.png", "A.wav"]
    ensures Assets(files, dirPath) == files
  {
    var p0, p1 := Combine(dirPath, files[0]), Combine(dirPath, files[1]);
    assert p0[|p0| - 5..] == "a.png";
    assert p1[|p1| - 5..] == "A.wav";
    assert files[1..][1..] == [];
  }

  /** Two files of one directory whose stems sanitise alike abort the scan;
      no entry is overwritten. */
  lemma DuplicateKeyAborts(dir: FsDir, dirPath: string, i: nat, j: nat)
    requires i < j < |Assets(dir.files, dirPath)|
    requires KeyOf(Assets(dir.files, dirPath)[i]) == KeyOf(Assets(dir.files, dirPath)[j])
    ensures FileEntries(dir, dirPath).Failure?
  {
    FileEntriesSpec(dir, dirPath);
  }

  /** "a.png" and "A.wav" both want the key "A", so a directory holding
      both cannot be scanned. */
  lemma CaseOnlyCollision(dir: FsDir, dirPath: string)
    requires dir.files == ["a.png", "A.wav"]
    ensures FileEntries(dir, dirPath).Failure?
  {
    NoSidecars(dir.files, dirPath);
    KeyExamples();
    DuplicateKeyAborts(dir, dirPath, 0, 1);
  }

  // ---------------------------------------------------------------------
  // The shape of the built tree

  /** The children are built one by one: the list succeeds exactly when
      every child does, and then holds each child's tree at its position. */
  lemma {:induction false} BuildChildrenSpec(subdirs: seq<FsDir>, dirPath: string)
    ensures BuildChildren(subdirs, dirPath).Success?
        <==> forall i :: 0 <= i < |subdirs| ==> BuildChild(subdirs[i], dirPath).Success?
    ensures BuildChildren(subdirs, dirPath).Success? ==>
      var children := BuildChildren(subdirs, dirPath).value;
      && |children| == |subdirs|
      && forall i :: 0 <= i < |subdirs| ==> BuildChild(subdirs[i], dirPath) == Success(children[i])
  {
    if subdirs != [] {
      BuildChildrenSpec(subdirs[1..], dirPath);
      assert forall i :: 1 <= i < |subdirs| ==> subdirs[i] == subdirs[1..][i - 1];
    }
  }

  /** The built tree has the scanned tree's shape: one node per directory,
      each child named after its subdirectory, in enumeration order. */
  predicate Mirrors(data: DirectoryData, dir: FsDir)
    decreases dir
  {
    && |data.directories| == |dir.subdirs|
    && forall i :: 0 <= i < |dir.subdirs| ==>
         data.directories[i].name == dir.subdirs[i].name && Mirrors(data.directories[i], dir.subdirs[i])
  }

  /** A successful scan names the node as asked, gives it its own
      dictionary and mirrors the directory tree. */
  lemma {:induction false} BuildMirrors(dir: FsDir, dirPath: string, name: string)
    requires Build(dir, dirPath, name).Success?
    ensures var data := Build(dir, dirPath, name).value;
      && data.name == name
      && Success(data.nameToPath) == FileEntries(dir, dirPath)
      && Mirrors(data, dir)
    decreases dir
  {
    var data := Build(dir, dirPath, name).value;
    BuildUnfold(dir, dirPath, name);
    BuildChildrenSpec(dir.subdirs, dirPath);
    forall i | 0 <= i < |dir.subdirs|
      ensures data.directories[i].name == dir.subdirs[i].name && Mirrors(data.directories[i], dir.subdirs[i])
    {
      var sub := dir.subdirs[i];
      BuildMirrors(sub, Combine(dirPath, sub.name), sub.name);
    }
  }

  /** Every directory of the tree can be scanned: all its non-sidecar files
      have keys and no two of them share one. */
  predicate Scannable(dir: FsDir, dirPath: string)
    decreases dir
  {
    var assets := Assets(dir.files, dirPath);
    && Keyable(assets)
    && DistinctKeys(assets)
    && forall i :: 0 <= i < |dir.subdirs| ==>
         Scannable(dir.subdirs[i], Combine(dirPath, dir.subdirs[i].name))
  }

  /** The scan succeeds exactly when every directory can be scanned. */
  lemma {:induction false} BuildSucceeds(dir: FsDir, dirPath: string, name: string)
    ensures Build(dir, dirPath, name).Success? <==> Scannable(dir, dirPath)
    decreases dir
  {
    BuildUnfold(dir, dirPath, name);
    BuildChildrenSpec(dir.subdirs, dirPath);
    FileEntriesSpec(dir, dirPath);
    forall i | 0 <= i < |dir.subdirs|
      ensures BuildChild(dir.subdirs[i], dirPath).Success?
          <==> Scannable(dir.subdirs[i], Combine(dirPath, dir.subdirs[i].name))
    {
      var sub := dir.subdirs[i];
      BuildSucceeds(sub, Combine(dirPath, sub.name), sub.name);
    }
  }

  // ---------------------------------------------------------------------
  // Counting

  /** Directories of the scanned tree, the root included. */
  function DirCount(dir: FsDir): nat
    decreases dir, 1
  {
    1 + DirCounts(dir.subdirs)
  }

  function DirCounts(dirs: seq<FsDir>): nat
    decreases dirs, 0
  {
    if dirs == [] then 0 else DirCount(dirs[0]) + DirCounts(dirs[1..])
  }

  /** Non-sidecar files of the scanned tree. */
  function AssetCount(dir: FsDir, dirPath: string): nat
    decreases dir, 1
  {
    |Assets(dir.files, dirPath)| + AssetCounts(dir.subdirs, dirPath)
  }

  function AssetCounts(dirs: seq<FsDir>, dirPath: string): nat
    decreases dirs, 0
  {
    if dirs == [] then 0
    else AssetCount(dirs[0], Combine(dirPath, dirs[0].name)) + AssetCounts(dirs[1..], dirPath)
  }

  /** Nodes of a built tree. */
  function NodeCount(data: DirectoryData): nat
    decreases data, 1
  {
    1 + NodeCounts(data.directories)
  }

  function NodeCounts(nodes: seq<DirectoryData>): nat
    decreases nodes, 0
  {
    if nodes == [] then 0 else NodeCount(nodes[0]) + NodeCounts(nodes[1..])
  }

  /** Dictionary entries of a built tree. */
  function EntryCount(data: DirectoryData): nat
    decreases data, 1
  {
    |data.nameToPath| + EntryCounts(data.directories)
  }

  function EntryCounts(nodes: seq<DirectoryData>): nat
    decreases nodes, 0
  {
    if nodes == [] then 0 else EntryCount(nodes[0]) + EntryCounts(nodes[1..])
  }

  /** A built tree has one node per directory and one entry per
      non-sidecar file, at every depth. */
  lemma {:induction false} BuildCounts(dir: FsDir, dirPath: string, name: string)
    requires Build(dir, dirPath, name).Success?
    ensures NodeCount(Build(dir, dirPath, name).value) == DirCount(dir)
    ensures EntryCount(Build(dir, dirPath, name).value) == AssetCount(dir, dirPath)
    decreases dir, 1
  {
    BuildUnfold(dir, dirPath, name);
    FileEntriesSpec(dir, dirPath);
    BuildChildrenCounts(dir.subdirs, dirPath);
  }

  lemma {:induction false} BuildChildrenCounts(subdirs: seq<FsDir>, dirPath: string)
    requires BuildChildren(subdirs, dirPath).Success?
    ensures NodeCounts(BuildChildren(subdirs, dirPath).value) == DirCounts(subdirs)
    ensures EntryCounts(BuildChildren(subdirs, dirPath).value) == AssetCounts(subdirs, dirPath)
    decreases subdirs, 0
  {
    if subdirs != [] {
      var sub := subdirs[0];
      BuildCounts(sub, Combine(dirPath, sub.name), sub.name);
      BuildChildrenCounts(subdirs[1..], dirPath);
      var children := BuildChildren(subdirs, dirPath).value;
      assert children[1..] == BuildChildren(subdirs[1..], dirPath).value;
    }
  }

  // ---------------------------------------------------------------------
  // Where the entries' paths lie

  /** Every entry of the tree has a path that starts with `prefix`. */
  predicate EntriesUnder(data: DirectoryData, prefix: string)
    decreases data
  {
    && (forall e <- data.nameToPath :: StartsWith(e.path, prefix))
    && forall i :: 0 <= i < |data.directories| ==> EntriesUnder(data.directories[i], prefix)
  }

  /** Every path the scan records lies below the directory it started from:
      it starts with that directory's path and a separator. */
  lemma {:induction false} BuildEntriesUnder(dir: FsDir, dirPath: string, name: string, root: string)
    requires dirPath == root || StartsWith(dirPath, root + [Separator])
    requires Build(dir, dirPath, name).Success?
    ensures EntriesUnder(Build(dir, dirPath, name).value, root + [Separator])
    decreases dir
  {
    var data := Build(dir, dirPath, name).value;
    var prefix := root + [Separator];
    BuildUnfold(dir, dirPath, name);
    BuildChildrenSpec(dir.subdirs, dirPath);
    FileEntriesSpec(dir, dirPath);
    assert StartsWith(dirPath + [Separator], prefix) by {
      if dirPath != root {
        StartsWithConcat(dirPath, prefix, [Separator]);
      }
    }
    var assets := Assets(dir.files, dirPath);
    forall e <- data.nameToPath ensures StartsWith(e.path, prefix) {
      var k :| 0 <= k < |data.nameToPath| && data.nameToPath[k] == e;
      StartsWithConcat(dirPath + [Separator], prefix, assets[k]);
    }
    forall i | 0 <= i < |dir.subdirs|
      ensures EntriesUnder(data.directories[i], prefix)
    {
      var sub := dir.subdirs[i];
      StartsWithConcat(dirPath + [Separator], prefix, sub.name);
      BuildEntriesUnder(sub, Combine(dirPath, sub.name), sub.name, root);
    }
  }
}
