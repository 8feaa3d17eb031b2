# Resources data generator — a verified model

This project models the Unity editor script `ResourcesDataGenerator`. When
assets under `Assets/Resources/` change, the script scans the project's
`Resources` folder and writes `ResourcesData.cs`. That file holds one nested
`public class` per directory and, for every asset, one static property that
loads the asset with `UnityEngine.Resources.Load<T>`. The model covers five
parts of the script:

- **The identifier sanitiser** `GeneratePropertyName` (module `PropertyNames`).
  It turns every character outside `[a-zA-Z0-9]` into a space. It splits on
  space, `-` and `_`, dropping empty words. It prefixes `_` when the first word
  starts with a digit. It upper-cases the first character of each word and
  lower-cases the rest.
- **The post-processor trigger** `IsGenerateCodeRequired` /
  `OnPostprocessAllAssets` (module `Postprocess`).
- **The tree scan** `ProcessDirectory`, `WriteDirectories` and `WriteFiles`
  (module `Scanner`). They take a directory listing (`FsDir`) and build the
  `DirectoryData` tree. `DirectoryData` is a C# struct, so it is a datatype
  here. Its `Dictionary<string, string>` is a sequence of key/path entries in
  insertion order.
- **The renderer** `DirectoryData.ToString(tabCount)` (module `Emitter`). The
  rendered text is described as a sequence of pieces: a class opening, an
  accessor line, the line break after a nested class, and a closing brace.
  `Text` spells out the exact characters of each piece. Counts, nesting,
  indentation and order are proved on the pieces.
- **The pipeline** `GenerateCode` (module `Generator`): build the tree, render
  it at depth 0, and name the output file after the root node.

Each imperative routine of the script is a Dafny `method` with the script's
own loops:

- the sanitiser's `StringBuilder` loop;
- the array of subdirectory shells filled by `WriteDirectories` and then
  replaced slot by slot by `ProcessDirectory`;
- the dictionary filled by `WriteFiles`;
- the two loops of `ToString`.

`WriteDirectories` states the contents of its fresh array outright. Every
other method is proved equal to a recursive function, and the properties
are proved as lemmas about those functions.

Behaviour of the script worth noting, which the model follows:

- `"9lives"` sanitises to `"_9lives"`, because only the first character of a
  word is upper-cased.
- A name with no ASCII letter or digit makes `words[0]` throw. The model
  returns `None`, and the run fails with `UnnamableFile` or
  `UnnamableDirectory`. It does not produce an empty identifier.
- Two files of one directory with the same key make `Dictionary.Add` throw.
  The run fails with `DuplicateKey`; the last file does not win.
- The root node is called `ResourcesData`, so its generated class is named
  `Resourcesdata`.
- The trigger inspects only the first path of each list. See Findings.
- The load path of an accessor is cut at the first `.` of the relative path.
  See Findings.

## Model

| member | source | states |
|---|---|---|
| PropertyNames.GeneratePropertyName | ResourcesDataGenerator.cs:87-116 | The StringBuilder loop returns exactly `PropertyName(s)`: `None` when the split gives no words, otherwise an optional `_` followed by each word with its first character upper-cased and the rest lower-cased |
| PropertyNames.WordsAreRuns | ResourcesDataGenerator.cs:89-113 | Replacing non-alphanumerics and splitting on separators gives the same capitalised text as the character-level definition (first character of each run of letters and digits upper-cased, the rest lower-cased); there are no words iff the name has no letter or digit, and the first word starts with the first letter or digit |
| PropertyNames.PropertyNameIsCased | ResourcesDataGenerator.cs:89-115 | The sanitiser restated on characters: `None` iff there is no letter or digit, else `_` (iff the first letter or digit is a digit) followed by the cased runs |
| PropertyNames.PropertyNameFails | ResourcesDataGenerator.cs:96-103 | The sanitiser fails (`words[0]` throws) exactly when no character is an ASCII letter or digit |
| PropertyNames.PropertyNameShape | ResourcesDataGenerator.cs:89-115 | A result consists of ASCII letters and digits plus at most a leading `_`. Its length is the input's letter-and-digit count plus one iff the first of them is a digit. It starts with `_` iff that first one is a digit, and it never starts with a digit |
| PropertyNames.PropertyNameIgnoresCase | ResourcesDataGenerator.cs:106-113 | Two names that differ only in ASCII letter case sanitise to the same result |
| PropertyNames.CasedBreak | ResourcesDataGenerator.cs:89-99 | A character other than a letter or digit ends the run before it, and the text after it starts a new word |
| PropertyNames.SingleRun | ResourcesDataGenerator.cs:103-113 | A name made of one run of letters and digits becomes its first character upper-cased and the rest lower-cased, after a `_` iff it starts with a digit |
| PropertyNames.SeparatorsVanish | ResourcesDataGenerator.cs:89-113 | `"My-File_02"` sanitises to `"MyFile02"` |
| PropertyNames.LeadingDigit | ResourcesDataGenerator.cs:103-112 | `"9lives"` sanitises to `"_9lives"` |
| PropertyNames.InnerCapitalsLowered | ResourcesDataGenerator.cs:103-113 | A name that is one run of letters and digits, made of a capital, a stretch without capitals and a tail, keeps the capital and the stretch and lower-cases the tail |
| PropertyNames.InnerCapitalLost | ResourcesDataGenerator.cs:111-112 | `"MyFile02"` sanitises to `"Myfile02"`: a capital inside a word is lower-cased |
| PropertyNames.NotIdempotent | ResourcesDataGenerator.cs:87-116 | Some name's sanitised form sanitises to something else, so sanitising is not idempotent |
| Postprocess.IsGenerateCodeRequired | ResourcesDataGenerator.cs:24-27 | True iff the list is non-empty and its first path starts with `Assets/Resources/`; it then has a path under that folder |
| Postprocess.OnPostprocessAllAssets | ResourcesDataGenerator.cs:15-22 | Code is generated iff the imported, deleted or moved list passes that test; every such batch touches the watched folder |
| Postprocess.OnlyFirstEntryInspected | ResourcesDataGenerator.cs:24-27 | Two path lists that agree on emptiness and on their first entry get the same verdict, whatever follows |
| Postprocess.MovedFromIgnored | ResourcesDataGenerator.cs:15-22 | The decision never depends on `movedFromAssetPaths` |
| Postprocess.FirstEntryTestIsIncomplete | ResourcesDataGenerator.cs:24-27 | The first-entry test implies that some path lies under `Assets/Resources/`. A batch whose watched path is second is not acted upon |
| Postprocess.MissedBatches | ResourcesDataGenerator.cs:15-27 | An import whose first path is elsewhere, and a move out of the watched folder, do not regenerate the code |
| Postprocess.ShouldRegenerateCoversChanges | ResourcesDataGenerator.cs:15-27 | The corrected trigger fires on any changed path under the watched folder, and whenever the original fires |
| Scanner.WriteDirectories | ResourcesDataGenerator.cs:64-75 | A fresh array with one entry per subdirectory, in listing order, each an empty node named after that subdirectory |
| Scanner.WriteFiles | ResourcesDataGenerator.cs:77-85 | The loop over non-`.meta` files returns exactly `FileEntries`, the dictionary built by successive `Add`s, including its failures |
| Scanner.ProcessDirectory | ResourcesDataGenerator.cs:55-62 | Filling the directory array in place by recursive calls returns exactly `Build`, the recursive scan |
| Scanner.AddFilesSpec | ResourcesDataGenerator.cs:83-84 | Successive `Add`s succeed iff every file has a key, no two files share one and none is already present; the result is the old entries followed by one entry per file, in order |
| Scanner.FileEntriesSpec | ResourcesDataGenerator.cs:77-85 | A directory's dictionary succeeds iff every non-`.meta` file has a key and the keys are distinct. Then entry i is the i-th such file, keyed by the sanitised name without extension and mapped to its full path. No entry's path ends in `.meta` |
| Scanner.DuplicateKeyAborts | ResourcesDataGenerator.cs:83-84 | Two files of one directory with the same key make the scan fail; nothing is overwritten |
| Scanner.CaseOnlyCollision | ResourcesDataGenerator.cs:83-84 | `a.png` and `A.wav` in one directory make the scan fail |
| Scanner.BuildChildrenSpec | ResourcesDataGenerator.cs:60-61 | The subdirectories are processed in order: all succeed iff each does, and child i is subdirectory i's tree |
| Scanner.BuildMirrors | ResourcesDataGenerator.cs:55-75 | A scanned node keeps its name and its directory's dictionary. It has one child per subdirectory, in order, each named after its subdirectory, down the whole tree |
| Scanner.BuildSucceeds | ResourcesDataGenerator.cs:55-85 | The scan succeeds iff, in every directory, every non-`.meta` file has a key and no two keys clash |
| Scanner.BuildCounts | ResourcesDataGenerator.cs:55-85 | A scanned tree has one node per directory and one entry per non-`.meta` file |
| Scanner.BuildEntriesUnder | ResourcesDataGenerator.cs:61 | Every recorded path starts with the scanned root and a separator |
| Emitter.ToString | ResourcesDataGenerator.cs:124-148 | The StringBuilder with its two loops returns exactly `Render`, the text of the node's pieces |
| Emitter.AccessorsSpec | ResourcesDataGenerator.cs:136-143 | Accessor lines render iff every path is longer than the root. Then there is one line per entry, in order. Each holds the entry's key, the type looked up for `Assets/Resources/` plus the relative path, and that path cut at the first `.` |
| Emitter.AccessorOfAsset | ResourcesDataGenerator.cs:138-142 | For a path that is the root, a separator and a relative path: the line has the entry's key and the type found for `Assets/Resources/` plus that path. Its load path is the longest prefix of it without a `.` |
| Emitter.FirstDotCutsTooMuch | ResourcesDataGenerator.cs:138-142 | For `ui.v2/icon.png` the accessor loads `"ui"` and for `icon.v2.png` it loads `"icon"`, while the intended load paths are `"ui.v2/icon"` and `"icon.v2"`, the latter also the stem that gives the key |
| Emitter.IntendedLoadPathOfFile | ResourcesDataGenerator.cs:140 | The corrected load path of a file is its directory path followed by the file name without its extension, the same stem `GetFileNameWithoutExtension` gives the key |
| Emitter.LayoutCounts | ResourcesDataGenerator.cs:131-145 | One class opening and one closing brace per node, one accessor line per dictionary entry, and one line break per nested class (the node count minus one) |
| Emitter.LayoutWellNested | ResourcesDataGenerator.cs:131-145 | Braces balance, no prefix closes more than it opens, and the node's own class stays open until the last piece |
| Emitter.LayoutShape | ResourcesDataGenerator.cs:128-145 | A node opens with its sanitised class name at its own depth and closes last at that depth. Nothing inside is indented less than the node, and accessor lines are deeper. Its own accessors come after every nested class |
| Emitter.LayoutIndented | ResourcesDataGenerator.cs:128-145 | Exact indentation: each class opening and accessor line has the node's depth plus the number of classes open before it in tabs, and each closing brace one fewer. A node at depth d is written with d tabs, its nested classes with d + 1 and their contents deeper still |
| Emitter.RenderFrame | ResourcesDataGenerator.cs:128-147 | The rendered text starts with a newline, `depth` tabs and `public class <name>`, and ends with `depth` tabs and `}` |
| Emitter.LayoutSucceeds | ResourcesDataGenerator.cs:131-138 | A tree whose paths lie below the root renders iff every node's name sanitises |
| Generator.GenerateCode | ResourcesDataGenerator.cs:29-46 | The pipeline method returns exactly `Generate`: scan, render at depth 0, add a line break, write to `<destination>/ResourcesData.cs` |
| Generator.GenerateSucceeds | ResourcesDataGenerator.cs:29-46 | A run writes its file iff every directory can be scanned and every subdirectory's name sanitises |
| Generator.GeneratedContents | ResourcesDataGenerator.cs:33-41 | The file is the rendered tree plus a line break. It has one class per directory (root included), one closing brace per directory and one property per non-`.meta` file. Its braces nest, and every class line and property is indented by its nesting depth |
| Generator.GeneratedFrame | ResourcesDataGenerator.cs:35-41 | The file starts with `\npublic class Resourcesdata\n` and ends with `}\n` |
| Generator.GeneratedPath | ResourcesDataGenerator.cs:43 | The file lies directly in `<dataPath>/_App/Scripts/Data` and is named `ResourcesData.cs` |
| Generator.RootClassName | ResourcesDataGenerator.cs:35 | The root class name is the sanitised `ResourcesData`, namely `Resourcesdata` |

## Left out

- File-system access: `Directory.GetDirectories`, `Directory.GetFiles`, `File.WriteAllText`. The scanned folder is an input tree (`FsDir`). The written file is returned as an `Output` value.
- `CheckDirectoryExists`, which creates the destination folder, and `AssetDatabase.Refresh`. Both are side effects on the host with no result the model could state.
- `Application.dataPath` is a parameter of the pipeline.
- `AssetDatabase.GetMainAssetTypeAtPath` and the type's printed name are one function parameter from asset path to type name. The case where it finds no type (printed as an empty string) is whatever that function returns.
- The .NET `Regex` engine and culture-sensitive `char.ToUpper`/`ToLower`. The character class `[^a-zA-Z0-9]` is modelled directly, with invariant ASCII casing. Non-ASCII letters count as non-alphanumeric, as the character class says, and locale-specific casing is not modelled.
- `Path.Combine` inserts `/`, and `AppendLine` writes `\n`. Windows separators and line endings are not modelled.
- The enumeration order of directory listings and of `Dictionary` is the order of the input sequences and of insertion. Nothing is claimed about how the host orders them.
- `Path.GetFileName` of a listed subdirectory is its name in the listing. File and directory names are taken to contain no separator.
- Exceptions are `Failure` results that end the run: a name the sanitiser rejects, a duplicate key, or a path shorter than the root in `Remove`. No other exception, such as an I/O error, is modelled.
- `StartsWith("Assets/Resources/")` and `EndsWith(".meta")` are culture-sensitive comparisons in .NET. They are modelled as ordinal comparisons, which agree with them on plain ASCII paths.
- PropertyNames.Split: its contract states only that every word is non-empty. That the words hold no separator is used through the character-level lemmas rather than stated there.

## Findings

| source | as written | input that shows it | evidently intended | confidence | as-written member | corrected member |
|---|---|---|---|---|---|---|
| ResourcesDataGenerator.cs:24-27 | `IsGenerateCodeRequired` looks only at `assets[0]`, so a batch whose watched path is not first is ignored | imported `["Assets/Scripts/Player.cs", "Assets/Resources/Icon.png"]` | regenerate when any changed path lies under `Assets/Resources/` | medium, not executed | Postprocess.FirstEntryTestIsIncomplete | Postprocess.ShouldRegenerateCoversChanges |
| ResourcesDataGenerator.cs:15-22 | `movedFromAssetPaths` is never consulted, so moving an asset out of the watched folder leaves a stale accessor | moved `["Assets/Art/Icon.png"]` from `["Assets/Resources/Icon.png"]` | also regenerate when a moved-from path lies under `Assets/Resources/` | medium, not executed | Postprocess.MissedBatches | Postprocess.ShouldRegenerateCoversChanges |
| ResourcesDataGenerator.cs:140 | `assetPath.Split('.')[0]` cuts the relative path at its first `.`, in a directory name or before a second extension, so `Resources.Load` gets a path that names no asset | `Resources/ui.v2/icon.png` loads `"ui"`; `Resources/icon.v2.png` loads `"icon"` | remove only the file's own extension, giving `"ui.v2/icon"` and `"icon.v2"` | medium, not executed | Emitter.FirstDotCutsTooMuch | Emitter.IntendedLoadPathOfFile |
