/** `GenerateCode`: scan the project's Resources folder, render the tree as
    nested classes and write the result to `ResourcesData.cs` under the
    project's data-scripts folder. */
module Generator {
  import opened Wrappers
  import opened Strings
  import opened PropertyNames
  import opened Scanner
  import opened Emitter

  /** The name given to the root node before the scan. */
  const RootName: string := "ResourcesData"

  /** `Root`: the Resources folder below `Application.dataPath`. */
  function Root(dataPath: string): string {
    dataPath + "/Resources"
  }

  /** `DestinationPath`: where the generated file goes. */
  function DestinationPath(dataPath: string): string {
    dataPath + "/_App/Scripts/Data"
  }

  /** The file `GenerateCode` writes: its path and its contents. */
  datatype Output = Output(path: string, contents: string)

  /** The whole run as a function of the project's data path, the listing
      of its Resources folder and the editor's asset-type lookup. */
  function Generate(dataPath: string, resources: FsDir, resolve: string -> string): Result<Output, Error> {
    var data :- Build(resources, Root(dataPath), RootName);
    var text :- Render(data, 0, Root(dataPath), resolve);
    Success(Output(Combine(DestinationPath(dataPath), RootName + ".cs"), text + NewLine))
  }

  /** `GenerateCode` as the source writes it. */
  method GenerateCode(dataPath: string, resources: FsDir, resolve: string -> string) returns (r: Result<Output, Error>)
    ensures r == Generate(dataPath, resources, resolve)
  {
    var data := ProcessDirectory(resources, Root(dataPath), RootName);
    if data.Failure? {
      return Failure(data.error);
    }
    var text := ToString(data.value, 0, Root(dataPath), resolve);
    if text.Failure? {
      return Failure(text.error);
    }
    var sb := text.value + NewLine;
    BuildMirrors(resources, Root(dataPath), RootName);
    return Success(Output(Combine(DestinationPath(dataPath), data.value.name + ".cs"), sb));
  }

  // ---------------------------------------------------------------------
  // Properties of a run

  /** Every subdirectory, at any depth, has a name that sanitises. */
  predicate DirsNamed(dir: FsDir)
    decreases dir
  {
    forall i :: 0 <= i < |dir.subdirs| ==>
      PropertyName(dir.subdirs[i].name).Some? && DirsNamed(dir.subdirs[i])
  }

  lemma {:induction false} MirrorsNamed(data: DirectoryData, dir: FsDir)
    requires Mirrors(data, dir)
    ensures Named(data) <==> PropertyName(data.name).Some? && DirsNamed(dir)
    decreases dir
  {
    forall i | 0 <= i < |dir.subdirs|
      ensures Named(data.directories[i])
          <==> PropertyName(dir.subdirs[i].name).Some? && DirsNamed(dir.subdirs[i])
    {
      MirrorsNamed(data.directories[i], dir.subdirs[i]);
    }
  }

  /** The root class is named after "ResourcesData", which the sanitiser
      turns into "Resourcesdata". */
  lemma RootClassName()
    ensures PropertyName(RootName) == Some("Resourcesdata")
  {
    NameOfRoot(RootName);
  }

  lemma NameOfRoot(name: string)
    requires name == "ResourcesData"
    ensures PropertyName(name) == Some("Resourcesdata")
  {
    PartsOfRootName(name);
    InnerCapitalsLowered(name, 'R', "esources", "Data");
  }

  lemma PartsOfRootName(name: string)
    requires name == "ResourcesData"
    ensures name == ['R'] + "esources" + "Data"
    ensures forall i :: 0 <= i < |name| ==> IsAlnum(name[i])
    ensures ['R'] + "esources" + LowerAll("Data") == "Resourcesdata"
  {
    assert LowerAll("Data") == "data";
  }

  /** The generated file lies directly in the destination folder and is
      named after the root node, "ResourcesData", with the ".cs" extension. */
  lemma GeneratedPath(dataPath: string, resources: FsDir, resolve: string -> string)
    requires Generate(dataPath, resources, resolve).Success?
    ensures var path := Generate(dataPath, resources, resolve).value.path;
      && StartsWith(path, DestinationPath(dataPath) + [Separator])
      && EndsWith(path, RootName + ".cs")
      && |path| == |DestinationPath(dataPath)| + 1 + |RootName + ".cs"|
  {
    var d := DestinationPath(dataPath);
    StartsWithPrefix(d + [Separator], RootName + ".cs");
    EndsWithConcat(d + [Separator], RootName + ".cs");
  }

  /** Whether the rendering of a successfully scanned tree succeeds. */
  lemma RenderOfBuild(dataPath: string, resources: FsDir, resolve: string -> string)
    requires Build(resources, Root(dataPath), RootName).Success?
    ensures Render(Build(resources, Root(dataPath), RootName).value, 0, Root(dataPath), resolve).Success?
        <==> DirsNamed(resources)
  {
    var root := Root(dataPath);
    var data := Build(resources, root, RootName).value;
    BuildEntriesUnder(resources, root, RootName, root);
    LayoutSucceeds(data, 0, root, resolve);
    BuildMirrors(resources, root, RootName);
    MirrorsNamed(data, resources);
    RootClassName();
  }

  /** A run writes its file exactly when every directory can be scanned and
      every subdirectory's name sanitises. */
  lemma GenerateSucceeds(dataPath: string, resources: FsDir, resolve: string -> string)
    ensures Generate(dataPath, resources, resolve).Success?
        <==> Scannable(resources, Root(dataPath)) && DirsNamed(resources)
  {
    BuildSucceeds(resources, Root(dataPath), RootName);
    if Build(resources, Root(dataPath), RootName).Success? {
      RenderOfBuild(dataPath, resources, resolve);
    }
  }

  /** The generated file declares one class per directory of the Resources
      folder and one property per asset in it, its braces nest, and it is
      the rendered tree followed by a line break; every line is indented by
      its nesting depth. */
  lemma GeneratedContents(dataPath: string, resources: FsDir, resolve: string -> string)
    requires Generate(dataPath, resources, resolve).Success?
    ensures var data := Build(resources, Root(dataPath), RootName).value;
      var pieces := Layout(data, 0, Root(dataPath), resolve).value;
      && Generate(dataPath, resources, resolve).value.contents == Text(pieces) + NewLine
      && Count(pieces, Opening) == DirCount(resources)
      && Count(pieces, Closing) == DirCount(resources)
      && Count(pieces, Property) == AssetCount(resources, Root(dataPath))
      && WellNested(pieces)
      && Indented(pieces, 0)
  {
    var root := Root(dataPath);
    var data := Build(resources, root, RootName).value;
    BuildCounts(resources, root, RootName);
    LayoutCounts(data, 0, root, resolve);
    LayoutWellNested(data, 0, root, resolve);
    LayoutIndented(data, 0, root, resolve);
  }

  /** The generated file opens with the root class declaration and ends
      with its closing brace and a line break. */
  lemma GeneratedFrame(dataPath: string, resources: FsDir, resolve: string -> string)
    requires Generate(dataPath, resources, resolve).Success?
    ensures var contents := Generate(dataPath, resources, resolve).value.contents;
      && StartsWith(contents, "\npublic class Resourcesdata\n")
      && EndsWith(contents, "}\n")
  {
    var root := Root(dataPath);
    var data := Build(resources, root, RootName).value;
    var text := Render(data, 0, root, resolve).value;
    BuildMirrors(resources, root, RootName);
    RenderFrame(data, 0, root, resolve);
    RootClassName();
    RootDeclaration();
    StartsWithConcat(text, "\npublic class Resourcesdata\n", NewLine);
    EndsWithAppend(text, Tabs(0) + "}", NewLine);
    assert Tabs(0) + "}" + NewLine == "}\n";
  }

  lemma RootDeclaration()
    ensures "\n" + Tabs(0) + "public class " + "Resourcesdata" + "\n" == "\npublic class Resourcesdata\n"
  {
    assert Tabs(0) == "";
  }
}
