/** The renderer `DirectoryData.ToString(tabCount)`: each node becomes a
    nested `public class`, its subdirectories' classes first and then one
    static accessor per dictionary entry. The text is described as a
    sequence of pieces (class openings, accessor lines, line breaks after
    nested classes, closing braces) so that counts, nesting and order can be
    stated on the pieces and the exact text read off them. */
module Emitter {
  import opened Wrappers
  import opened Strings
  import opened PropertyNames
  import opened Scanner

  /** `Environment.NewLine`, as `AppendLine` writes it. */
  const NewLine: string := "\n"

  /** The folder, relative to the project, under which an asset's type is
      looked up. */
  const AssetFolder: string := "Assets/Resources/"

  datatype Piece =
    | ClassOpen(depth: nat, className: string)
    | Accessor(depth: nat, typeName: string, key: string, path: string)
    | ChildEnd
    | ClassClose(depth: nat)

  /** The opening of a class: a blank line, the declaration and its brace. */
  function ClassHeader(tab: string, className: string): string {
    "\n" + tab + "public class " + className + "\n" + tab + "{" + NewLine
  }

  /** A static property that loads the asset `path` as a `typeName`. */
  function AccessorLine(tab: string, typeName: string, key: string, path: string): string {
    tab + "public static " + typeName + " " + key + " => UnityEngine.Resources.Load<" + typeName + ">(\"" + path + "\");" + NewLine
  }

  function PieceText(p: Piece): string {
    match p
    case ClassOpen(d, c) => ClassHeader(Tabs(d), c)
    case Accessor(d, t, k, path) => AccessorLine(Tabs(d), t, k, path)
    case ChildEnd => NewLine
    case ClassClose(d) => Tabs(d) + "}"
  }

  function Text(pieces: seq<Piece>): string {
    if pieces == [] then "" else PieceText(pieces[0]) + Text(pieces[1..])
  }

  lemma {:induction false} TextAppend(a: seq<Piece>, b: seq<Piece>)
    ensures Text(a + b) == Text(a) + Text(b)
  {
    if a == [] {
      assert [] + b == b;
    } else {
      assert (a + b)[1..] == a[1..] + b;
      TextAppend(a[1..], b);
    }
  }

  /** The class name of a node; a name without letters or digits makes the
      sanitiser throw. */
  function ClassName(name: string): Result<string, Error> {
    match PropertyName(name)
    case None => Failure(UnnamableDirectory(name))
    case Some(c) => Success(c)
  }

  /** One accessor: the full path loses the root and one separator
      (`string.Remove` throws when the path is shorter), the type is looked
      up under "Assets/Resources/", and the load path stops at the first '.'. */
  function AccessorOf(e: Entry, depth: nat, root: string, resolve: string -> string): Result<Piece, Error> {
    if |e.path| < |root| + 1 then Failure(PathOutsideRoot(e.path))
    else
      var assetPath := e.path[|root| + 1..];
      var typeName := resolve(AssetFolder + assetPath);
      Success(Accessor(depth, typeName, e.key, UpToFirst(assetPath, '.')))
  }

  function Accessors(entries: seq<Entry>, depth: nat, root: string, resolve: string -> string): Result<seq<Piece>, Error> {
    if entries == [] then Success([])
    else
      var first :- AccessorOf(entries[0], depth, root, resolve);
      var rest :- Accessors(entries[1..], depth, root, resolve);
      Success([first] + rest)
  }

  /** The pieces of one node at nesting depth `depth`. */
  function Layout(data: DirectoryData, depth: nat, root: string, resolve: string -> string): Result<seq<Piece>, Error>
    decreases data, 0
  {
    var className :- ClassName(data.name);
    var children :- LayoutChildren(data.directories, depth + 1, root, resolve);
    var accessors :- Accessors(data.nameToPath, depth + 1, root, resolve);
    Success([ClassOpen(depth, className)] + children + accessors + [ClassClose(depth)])
  }

  /** Nested classes, each followed by the line break of `AppendLine`. */
  function LayoutChildren(nodes: seq<DirectoryData>, depth: nat, root: string, resolve: string -> string): Result<seq<Piece>, Error>
    decreases nodes, 0
  {
    if nodes == [] then Success([])
    else
      var first :- Layout(nodes[0], depth, root, resolve);
      var rest :- LayoutChildren(nodes[1..], depth, root, resolve);
      Success(first + [ChildEnd] + rest)
  }

  /** The text `ToString(depth)` returns. */
  function Render(data: DirectoryData, depth: nat, root: string, resolve: string -> string): Result<string, Error> {
    var pieces :- Layout(data, depth, root, resolve);
    Success(Text(pieces))
  }

  lemma LayoutUnfold(data: DirectoryData, depth: nat, root: string, resolve: string -> string)
    ensures var c := ClassName(data.name);
      var children := LayoutChildren(data.directories, depth + 1, root, resolve);
      var accessors := Accessors(data.nameToPath, depth + 1, root, resolve);
      Layout(data, depth, root, resolve)
        == if c.Failure? then Failure(c.error)
           else if children.Failure? then Failure(children.error)
           else if accessors.Failure? then Failure(accessors.error)
           else Success([ClassOpen(depth, c.value)] + children.value + accessors.value + [ClassClose(depth)])
  {
  }

  lemma LayoutChildrenUnfold(nodes: seq<DirectoryData>, depth: nat, root: string, resolve: string -> string)
    requires nodes != []
    ensures var first := Layout(nodes[0], depth, root, resolve);
      LayoutChildren(nodes, depth, root, resolve)
        == if first.Failure? then Failure(first.error)
           else Prepend(first.value + [ChildEnd], LayoutChildren(nodes[1..], depth, root, resolve))
  {
  }

  lemma AccessorsUnfold(entries: seq<Entry>, depth: nat, root: string, resolve: string -> string)
    requires entries != []
    ensures var first := AccessorOf(entries[0], depth, root, resolve);
      Accessors(entries, depth, root, resolve)
        == if first.Failure? then Failure(first.error)
           else Prepend([first.value], Accessors(entries[1..], depth, root, resolve))
  {
  }

  /** Appending the text of more pieces extends the rendered text. */
  lemma AppendText(done: seq<Piece>, sb: string, more: seq<Piece>, t: string)
    requires sb == Text(done) && t == Text(more)
    ensures sb + t == Text(done + more)
  {
    TextAppend(done, more);
  }

  lemma Regroup(a: seq<Piece>, b: seq<Piece>, c: seq<Piece>)
    ensures a + b + c == a + (b + c)
  {
  }

  lemma TextOne(p: Piece)
    ensures Text([p]) == PieceText(p)
  {
    assert Text([p]) == PieceText(p) + Text([]);
  }

  lemma ChildText(pieces: seq<Piece>, t: string)
    requires t == Text(pieces)
    ensures t + NewLine == Text(pieces + [ChildEnd])
  {
    TextOne(ChildEnd);
    AppendText(pieces, t, [ChildEnd], NewLine);
  }

  /** The nested classes from the `i`-th on: the `i`-th class, its line
      break and the rest. */
  lemma ChildrenAt(nodes: seq<DirectoryData>, i: nat, depth: nat, root: string, resolve: string -> string)
    requires i < |nodes|
    ensures var first := Layout(nodes[i], depth, root, resolve);
      LayoutChildren(nodes[i..], depth, root, resolve)
        == if first.Failure? then Failure(first.error)
           else Prepend(first.value + [ChildEnd], LayoutChildren(nodes[i + 1..], depth, root, resolve))
  {
    var rest := nodes[i..];
    assert rest[0] == nodes[i] && rest[1..] == nodes[i + 1..];
    LayoutChildrenUnfold(rest, depth, root, resolve);
  }

  /** The accessor lines from the `i`-th entry on, in the same way. */
  lemma AccessorsAt(entries: seq<Entry>, i: nat, depth: nat, root: string, resolve: string -> string)
    requires i < |entries|
    ensures var first := AccessorOf(entries[i], depth, root, resolve);
      Accessors(entries[i..], depth, root, resolve)
        == if first.Failure? then Failure(first.error)
           else Prepend([first.value], Accessors(entries[i + 1..], depth, root, resolve))
  {
    var rest := entries[i..];
    assert rest[0] == entries[i] && rest[1..] == entries[i + 1..];
    AccessorsUnfold(rest, depth, root, resolve);
  }

  /** One pass of either loop of `ToString`: the pieces `more`, whose text is
      `t`, are appended to the text built so far and move from the pending
      part of the expected result to the part already written. */
  lemma LoopStep(head: seq<Piece>, done: seq<Piece>, sb: string, more: seq<Piece>, t: string,
                 whole: Result<seq<Piece>, Error>, tail: Result<seq<Piece>, Error>)
    requires sb == Text(head + done) && t == Text(more)
    requires whole == Prepend(done, Prepend(more, tail))
    ensures sb + t == Text(head + (done + more))
    ensures whole == Prepend(done + more, tail)
  {
    AppendText(head + done, sb, more, t);
    PrependTwice(done, more, tail);
    Regroup(head, done, more);
  }

  /** `ToString(tabCount)` as the source writes it: a `StringBuilder` filled
      by a header, a loop over the nested classes and a loop over the entries. */
  method ToString(data: DirectoryData, tabCount: nat, root: string, resolve: string -> string)
    returns (r: Result<string, Error>)
    ensures r == Render(data, tabCount, root, resolve)
    decreases data
  {
    var tab := Tabs(tabCount);
    var innerTab := Tabs(tabCount + 1);
    var className := GeneratePropertyName(data.name);
    if className.None? {
      LayoutUnfold(data, tabCount, root, resolve);
      return Failure(UnnamableDirectory(data.name));
    }
    var sb := ClassHeader(tab, className.value);
    ghost var open := [ClassOpen(tabCount, className.value)];
    TextOne(open[0]);

    var directories := data.directories;
    ghost var children: seq<Piece> := [];
    assert directories[0..] == directories;
    PrependEmpty(LayoutChildren(directories, tabCount + 1, root, resolve));
    for i := 0 to |directories|
      invariant sb == Text(open + children)
      invariant LayoutChildren(directories, tabCount + 1, root, resolve)
             == Prepend(children, LayoutChildren(directories[i..], tabCount + 1, root, resolve))
    {
      ChildrenAt(directories, i, tabCount + 1, root, resolve);
      var child := ToString(directories[i], tabCount + 1, root, resolve);
      if child.Failure? {
        LayoutUnfold(data, tabCount, root, resolve);
        return Failure(child.error);
      }
      ghost var pieces := Layout(directories[i], tabCount + 1, root, resolve).value;
      ChildText(pieces, child.value);
      LoopStep(open, children, sb, pieces + [ChildEnd], child.value + NewLine,
               LayoutChildren(directories, tabCount + 1, root, resolve),
               LayoutChildren(directories[i + 1..], tabCount + 1, root, resolve));
      sb := sb + (child.value + NewLine);
      children := children + (pieces + [ChildEnd]);
    }
    assert directories[|directories|..] == [];
    assert children + [] == children;
    assert open + children + [] == open + children;

    var entries := data.nameToPath;
    ghost var accessors: seq<Piece> := [];
    assert entries[0..] == entries;
    PrependEmpty(Accessors(entries, tabCount + 1, root, resolve));
    for i := 0 to |entries|
      invariant sb == Text(open + children + accessors)
      invariant Accessors(entries, tabCount + 1, root, resolve)
             == Prepend(accessors, Accessors(entries[i..], tabCount + 1, root, resolve))
    {
      AccessorsAt(entries, i, tabCount + 1, root, resolve);
      var pair := entries[i];
      if |pair.path| < |root| + 1 {
        LayoutUnfold(data, tabCount, root, resolve);
        return Failure(PathOutsideRoot(pair.path));
      }
      var assetPath := pair.path[|root| + 1..];
      var typeName := resolve(AssetFolder + assetPath);
      assetPath := UpToFirst(assetPath, '.');
      var line := AccessorLine(innerTab, typeName, pair.key, assetPath);
      ghost var piece := Accessor(tabCount + 1, typeName, pair.key, assetPath);
      TextOne(piece);
      LoopStep(open + children, accessors, sb, [piece], line,
               Accessors(entries, tabCount + 1, root, resolve),
               Accessors(entries[i + 1..], tabCount + 1, root, resolve));
      sb := sb + line;
      accessors := accessors + [piece];
    }
    assert entries[|entries|..] == [];
    assert accessors + [] == accessors;

    var closing := tab + "}";
    TextOne(ClassClose(tabCount));
    AppendText(open + children + accessors, sb, [ClassClose(tabCount)], closing);
    sb := sb + closing;
    LayoutUnfold(data, tabCount, root, resolve);
    return Success(sb);
  }

  // ---------------------------------------------------------------------
  // The accessors

  /** The accessor lines of one dictionary: they render exactly when every
      path is longer than the root, and then there is one per entry, in
      order, carrying its key, the type found for its asset path and its
      load path. */
  lemma {:induction false} AccessorsSpec(entries: seq<Entry>, depth: nat, root: string, resolve: string -> string)
    ensures Accessors(entries, depth, root, resolve).Success?
        <==> forall i :: 0 <= i < |entries| ==> |entries[i].path| > |root|
    ensures Accessors(entries, depth, root, resolve).Success? ==>
      var pieces := Accessors(entries, depth, root, resolve).value;
      && |pieces| == |entries|
      && forall i :: 0 <= i < |entries| ==>
           var assetPath := entries[i].path[|root| + 1..];
           pieces[i] == Accessor(depth, resolve(AssetFolder + assetPath), entries[i].key,
                                 UpToFirst(assetPath, '.'))
  {
    if entries != [] {
      AccessorsSpec(entries[1..], depth, root, resolve);
      assert forall i :: 1 <= i < |entries| ==> entries[i] == entries[1..][i - 1];
    }
  }

  /** An entry below the root: the type is looked up under
      "Assets/Resources/" plus the path relative to the root, and the load
      path is that relative path cut before its first '.'. */
  lemma AccessorOfAsset(e: Entry, depth: nat, root: string, assetPath: string, resolve: string -> string)
    requires e.path == root + [Separator] + assetPath
    ensures AccessorOf(e, depth, root, resolve).Success?
    ensures var a := AccessorOf(e, depth, root, resolve).value;
      && a.typeName == resolve(AssetFolder + assetPath)
      && a.key == e.key
      && StartsWith(assetPath, a.path) && '.' !in a.path
      && (a.path == assetPath || assetPath[|a.path|] == '.')
  {
    assert e.path[|root| + 1..] == assetPath;
  }

  /** The load path as written is cut at the first '.' of the whole relative
      path, so a directory named "ui.v2" loses everything after "ui", and a
      file named "icon.v2.png" loads "icon". Its key and the intended load
      path keep "icon.v2". */
  lemma FirstDotCutsTooMuch(e: Entry, f: Entry, depth: nat, root: string, resolve: string -> string,
                            p: string, q: string)
    requires p == "ui.v2/icon.png" && e.path == root + [Separator] + p
    requires q == "icon.v2.png" && f.path == root + [Separator] + q
    ensures AccessorOf(e, depth, root, resolve).Success? && AccessorOf(e, depth, root, resolve).value.path == "ui"
    ensures IntendedLoadPath(p) == "ui.v2/icon"
    ensures AccessorOf(f, depth, root, resolve).Success? && AccessorOf(f, depth, root, resolve).value.path == "icon"
    ensures IntendedLoadPath(q) == "icon.v2" && StripExtension(q) == "icon.v2"
  {
    AccessorOfAsset(e, depth, root, p, resolve);
    AccessorOfAsset(f, depth, root, q, resolve);
    LoadPathsOfExamples(p, q);
  }

  lemma LoadPathsOfExamples(p: string, q: string)
    requires p == "ui.v2/icon.png" && q == "icon.v2.png"
    ensures UpToFirst(p, '.') == "ui" && UpToFirst(q, '.') == "icon"
    ensures IntendedLoadPath(p) == "ui.v2/icon"
    ensures IntendedLoadPath(q) == "icon.v2" && StripExtension(q) == "icon.v2"
  {
    FirstDots(p, q);
    NestedExample(p, "ui.v2/", "icon.png");
    IntendedLoadPathOfFile("ui.v2/", "icon.png");
    StripsAfterLastDot("icon.png", 4);
    RootExample(q);
    IntendedLoadPathOfFile([], q);
    StripsAfterLastDot(q, 7);
  }

  lemma FirstDots(p: string, q: string)
    requires p == "ui.v2/icon.png" && q == "icon.v2.png"
    ensures UpToFirst(p, '.') == "ui" && UpToFirst(q, '.') == "icon"
  {
    assert p[2] == '.' && '.' !in p[..2];
    assert q[4] == '.' && '.' !in q[..4];
  }

  lemma NestedExample(p: string, dir: string, file: string)
    requires p == "ui.v2/icon.png" && dir == "ui.v2/" && file == "icon.png"
    ensures p == dir + file && dir[|dir| - 1] == Separator && Separator !in file
    ensures file[4] == '.' && '.' !in file[5..] && dir + file[..4] == "ui.v2/icon"
  {
  }

  lemma RootExample(q: string)
    requires q == "icon.v2.png"
    ensures q == [] + q && Separator !in q
    ensures q[7] == '.' && '.' !in q[8..] && q[..7] == "icon.v2"
  {
  }

  /** A name whose last '.' is at `k` loses that '.' and what follows. */
  lemma StripsAfterLastDot(name: string, k: nat)
    requires k < |name| && name[k] == '.' && '.' !in name[k + 1..]
    ensures StripExtension(name) == name[..k]
  {
  }

  /** Whether the last component of `path` has an extension: a '.' after its
      last separator. */
  predicate HasExtension(path: string)
    decreases |path|
  {
    && path != []
    && path[|path| - 1] != Separator
    && (path[|path| - 1] == '.' || HasExtension(path[..|path| - 1]))
  }

  /** The evidently intended load path: the relative path with only its
      file's extension removed. */
  function IntendedLoadPath(path: string): (r: string)
    ensures |r| <= |path| && r == path[..|r|]
    decreases |path|
  {
    if !HasExtension(path) then path
    else if path[|path| - 1] == '.' then path[..|path| - 1]
    else IntendedLoadPath(path[..|path| - 1])
  }

  lemma {:induction false} HasExtensionOfFile(dir: string, file: string)
    requires dir == [] || dir[|dir| - 1] == Separator
    requires Separator !in file
    ensures HasExtension(dir + file) <==> '.' in file
    decreases |file|
  {
    if file != [] {
      var init := file[..|file| - 1];
      assert (dir + file)[..|dir + file| - 1] == dir + init;
      assert file == init + [file[|file| - 1]];
      HasExtensionOfFile(dir, init);
    }
  }

  /** With the intended definition, the load path of a file is its directory
      followed by the same stem that gives the file its key. */
  lemma {:induction false} IntendedLoadPathOfFile(dir: string, file: string)
    requires dir == [] || dir[|dir| - 1] == Separator
    requires Separator !in file
    ensures IntendedLoadPath(dir + file) == dir + StripExtension(file)
    decreases |file|
  {
    HasExtensionOfFile(dir, file);
    if file == [] {
      assert dir + file == dir;
    } else if '.' in file {
      var init := file[..|file| - 1];
      assert (dir + file)[..|dir + file| - 1] == dir + init;
      if file[|file| - 1] != '.' {
        assert file == init + [file[|file| - 1]];
        IntendedLoadPathOfFile(dir, init);
      }
    }
  }

  // ---------------------------------------------------------------------
  // Counting the pieces

  datatype Kind = Opening | Closing | Property | Break

  function KindOf(p: Piece): Kind {
    match p
    case ClassOpen(_, _) => Opening
    case ClassClose(_) => Closing
    case Accessor(_, _, _, _) => Property
    case ChildEnd => Break
  }

  function Count(pieces: seq<Piece>, k: Kind): nat {
    if pieces == [] then 0 else (if KindOf(pieces[0]) == k then 1 else 0) + Count(pieces[1..], k)
  }

  lemma {:induction false} CountAppend(a: seq<Piece>, b: seq<Piece>, k: Kind)
    ensures Count(a + b, k) == Count(a, k) + Count(b, k)
  {
    if a == [] {
      assert [] + b == b;
    } else {
      assert (a + b)[1..] == a[1..] + b;
      CountAppend(a[1..], b, k);
    }
  }

  lemma CountOne(p: Piece, k: Kind)
    ensures Count([p], k) == if KindOf(p) == k then 1 else 0
  {
    assert [p][1..] == [];
  }

  /** Pieces that are all accessor lines open and close nothing. */
  predicate Flat(pieces: seq<Piece>) {
    forall i :: 0 <= i < |pieces| ==> pieces[i].Accessor?
  }

  lemma {:induction false} FlatCounts(pieces: seq<Piece>)
    requires Flat(pieces)
    ensures Count(pieces, Opening) == 0 && Count(pieces, Closing) == 0 && Count(pieces, Break) == 0
    ensures Count(pieces, Property) == |pieces|
  {
    if pieces != [] {
      FlatCounts(pieces[1..]);
    }
  }

  /** The kinds of a node's pieces add up over its four parts. */
  lemma CountNode(open: Piece, children: seq<Piece>, accessors: seq<Piece>, close: Piece, k: Kind)
    ensures Count([open] + children + accessors + [close], k)
         == Count([open], k) + Count(children, k) + Count(accessors, k) + Count([close], k)
  {
    CountAppend([open], children, k);
    CountAppend([open] + children, accessors, k);
    CountAppend([open] + children + accessors, [close], k);
  }

  /** One `public class` and one closing brace per node of the tree, one
      accessor line per dictionary entry, and one line break after each
      nested class. */
  lemma {:induction false} LayoutCounts(data: DirectoryData, depth: nat, root: string, resolve: string -> string)
    requires Layout(data, depth, root, resolve).Success?
    ensures var pieces := Layout(data, depth, root, resolve).value;
      && Count(pieces, Opening) == NodeCount(data)
      && Count(pieces, Closing) == NodeCount(data)
      && Count(pieces, Property) == EntryCount(data)
      && Count(pieces, Break) == NodeCount(data) - 1
    decreases data, 1
  {
    LayoutUnfold(data, depth, root, resolve);
    var children := LayoutChildren(data.directories, depth + 1, root, resolve).value;
    var accessors := Accessors(data.nameToPath, depth + 1, root, resolve).value;
    var open := ClassOpen(depth, ClassName(data.name).value);
    LayoutChildrenCounts(data.directories, depth + 1, root, resolve);
    AccessorsFlat(data.nameToPath, depth + 1, root, resolve);
    AccessorsSpec(data.nameToPath, depth + 1, root, resolve);
    FlatCounts(accessors);
    forall k: Kind
      ensures Count([open] + children + accessors + [ClassClose(depth)], k)
           == (if KindOf(open) == k then 1 else 0) + Count(children, k) + Count(accessors, k)
              + (if KindOf(ClassClose(depth)) == k then 1 else 0)
    {
      CountNode(open, children, accessors, ClassClose(depth), k);
      CountOne(open, k);
      CountOne(ClassClose(depth), k);
    }
  }

  lemma {:induction false} LayoutChildrenCounts(nodes: seq<DirectoryData>, depth: nat, root: string, resolve: string -> string)
    requires LayoutChildren(nodes, depth, root, resolve).Success?
    ensures var pieces := LayoutChildren(nodes, depth, root, resolve).value;
      && Count(pieces, Opening) == NodeCounts(nodes)
      && Count(pieces, Closing) == NodeCounts(nodes)
      && Count(pieces, Property) == EntryCounts(nodes)
      && Count(pieces, Break) == NodeCounts(nodes)
    decreases nodes, 0
  {
    if nodes != [] {
      var first := Layout(nodes[0], depth, root, resolve).value;
      var rest := LayoutChildren(nodes[1..], depth, root, resolve).value;
      LayoutCounts(nodes[0], depth, root, resolve);
      LayoutChildrenCounts(nodes[1..], depth, root, resolve);
      forall k: Kind
        ensures Count(first + [ChildEnd] + rest, k) == Count(first, k) + (if k == Break then 1 else 0) + Count(rest, k)
      {
        CountAppend(first, [ChildEnd], k);
        CountAppend(first + [ChildEnd], rest, k);
        CountOne(ChildEnd, k);
      }
    }
  }

  // ---------------------------------------------------------------------
  // Braces nest

  /** Classes opened and not yet closed after `pieces`. */
  function Unclosed(pieces: seq<Piece>): int {
    Count(pieces, Opening) - Count(pieces, Closing)
  }

  /** No prefix closes more classes than it opens. */
  predicate NeverNegative(pieces: seq<Piece>) {
    forall k :: 0 <= k <= |pieces| ==> Unclosed(pieces[..k]) >= 0
  }

  /** Balanced, and the first class stays open until the very last piece. */
  predicate WellNested(pieces: seq<Piece>) {
    && Unclosed(pieces) == 0
    && forall k :: 0 < k < |pieces| ==> Unclosed(pieces[..k]) > 0
  }

  lemma PrefixOfAppend(a: seq<Piece>, b: seq<Piece>, k: nat)
    requires k <= |a| + |b|
    ensures Unclosed((a + b)[..k])
         == if k <= |a| then Unclosed(a[..k]) else Unclosed(a) + Unclosed(b[..k - |a|])
  {
    if k <= |a| {
      assert (a + b)[..k] == a[..k];
    } else {
      assert (a + b)[..k] == a + b[..k - |a|];
      CountAppend(a, b[..k - |a|], Opening);
      CountAppend(a, b[..k - |a|], Closing);
    }
  }

  lemma AppendNeverNegative(a: seq<Piece>, b: seq<Piece>)
    requires NeverNegative(a) && NeverNegative(b) && Unclosed(a) >= 0
    ensures NeverNegative(a + b)
    ensures Unclosed(a + b) == Unclosed(a) + Unclosed(b)
  {
    CountAppend(a, b, Opening);
    CountAppend(a, b, Closing);
    forall k | 0 <= k <= |a + b|
      ensures Unclosed((a + b)[..k]) >= 0
    {
      PrefixOfAppend(a, b, k);
    }
  }

  lemma WellNestedNeverNegative(pieces: seq<Piece>)
    requires WellNested(pieces)
    ensures NeverNegative(pieces)
  {
    assert pieces[..0] == [];
    assert pieces[..|pieces|] == pieces;
  }

  lemma FlatNeverNegative(pieces: seq<Piece>)
    requires Flat(pieces)
    ensures NeverNegative(pieces) && Unclosed(pieces) == 0
  {
    FlatCounts(pieces);
    forall k | 0 <= k <= |pieces|
      ensures Unclosed(pieces[..k]) >= 0
    {
      assert Flat(pieces[..k]);
      FlatCounts(pieces[..k]);
    }
  }

  /** Every class the renderer emits is closed, and each node's own brace
      is the last to close. */
  lemma {:induction false} LayoutWellNested(data: DirectoryData, depth: nat, root: string, resolve: string -> string)
    requires Layout(data, depth, root, resolve).Success?
    ensures WellNested(Layout(data, depth, root, resolve).value)
    decreases data, 1
  {
    LayoutUnfold(data, depth, root, resolve);
    var pieces := Layout(data, depth, root, resolve).value;
    var children := LayoutChildren(data.directories, depth + 1, root, resolve).value;
    var accessors := Accessors(data.nameToPath, depth + 1, root, resolve).value;
    var open := ClassOpen(depth, ClassName(data.name).value);
    LayoutChildrenNested(data.directories, depth + 1, root, resolve);
    AccessorsFlat(data.nameToPath, depth + 1, root, resolve);
    NodeNested(open, children, accessors, ClassClose(depth));
  }

  lemma AccessorsFlat(entries: seq<Entry>, depth: nat, root: string, resolve: string -> string)
    requires Accessors(entries, depth, root, resolve).Success?
    ensures Flat(Accessors(entries, depth, root, resolve).value)
  {
    AccessorsSpec(entries, depth, root, resolve);
  }

  lemma NodeNested(open: Piece, children: seq<Piece>, accessors: seq<Piece>, close: Piece)
    requires open.ClassOpen? && close.ClassClose?
    requires NeverNegative(children) && Unclosed(children) == 0 && Flat(accessors)
    ensures WellNested([open] + children + accessors + [close])
  {
    FlatNeverNegative(accessors);
    AppendNeverNegative(children, accessors);
    assert [open] + children + accessors + [close] == [open] + (children + accessors) + [close];
    Enclosed(open, children + accessors, close);
  }

  /** A balanced, never-negative run of pieces between an opening and a
      closing piece is well nested. */
  lemma Enclosed(open: Piece, inner: seq<Piece>, close: Piece)
    requires open.ClassOpen? && close.ClassClose?
    requires NeverNegative(inner) && Unclosed(inner) == 0
    ensures WellNested([open] + inner + [close])
  {
    var pieces := [open] + inner + [close];
    CountOne(open, Opening);
    CountOne(open, Closing);
    CountOne(close, Opening);
    CountOne(close, Closing);
    forall k | 0 < k < |pieces|
      ensures Unclosed(pieces[..k]) > 0
    {
      assert pieces[..k] == [open] + inner[..k - 1];
      PrefixOfAppend([open], inner, k);
    }
    CountAppend([open], inner, Opening);
    CountAppend([open], inner, Closing);
    CountAppend([open] + inner, [close], Opening);
    CountAppend([open] + inner, [close], Closing);
  }

  lemma {:induction false} LayoutChildrenNested(nodes: seq<DirectoryData>, depth: nat, root: string, resolve: string -> string)
    requires LayoutChildren(nodes, depth, root, resolve).Success?
    ensures NeverNegative(LayoutChildren(nodes, depth, root, resolve).value)
    ensures Unclosed(LayoutChildren(nodes, depth, root, resolve).value) == 0
    decreases nodes, 0
  {
    if nodes == [] {
      var none: seq<Piece> := [];
      assert none[..0] == none;
    } else {
      var first := Layout(nodes[0], depth, root, resolve).value;
      var rest := LayoutChildren(nodes[1..], depth, root, resolve).value;
      LayoutWellNested(nodes[0], depth, root, resolve);
      WellNestedNeverNegative(first);
      LayoutChildrenNested(nodes[1..], depth, root, resolve);
      CountOne(ChildEnd, Opening);
      CountOne(ChildEnd, Closing);
      assert [ChildEnd][..0] == [] && [ChildEnd][..1] == [ChildEnd];
      AppendNeverNegative(first, [ChildEnd]);
      AppendNeverNegative(first + [ChildEnd], rest);
    }
  }

  // ---------------------------------------------------------------------
  // Exact indentation

  /** Every class opening and accessor line stands at `base` plus the number
      of classes still open before it, and every closing brace one level
      less, so a piece's depth (its number of tabs) is fixed by its nesting. */
  predicate Indented(pieces: seq<Piece>, base: int) {
    forall i :: 0 <= i < |pieces| ==>
      && (pieces[i].ClassOpen? || pieces[i].Accessor? ==> pieces[i].depth == base + Unclosed(pieces[..i]))
      && (pieces[i].ClassClose? ==> pieces[i].depth == base + Unclosed(pieces[..i]) - 1)
  }

  lemma IndentedAppend(a: seq<Piece>, b: seq<Piece>, base: int)
    requires Indented(a, base) && Indented(b, base + Unclosed(a))
    ensures Indented(a + b, base)
  {
    var ab := a + b;
    forall i | 0 <= i < |ab|
      ensures ab[i].ClassOpen? || ab[i].Accessor? ==> ab[i].depth == base + Unclosed(ab[..i])
      ensures ab[i].ClassClose? ==> ab[i].depth == base + Unclosed(ab[..i]) - 1
    {
      PrefixOfAppend(a, b, i);
      if i < |a| {
        assert ab[i] == a[i];
      } else {
        assert ab[i] == b[i - |a|];
        if i == |a| {
          assert a[..|a|] == a;
        }
      }
    }
  }

  lemma IndentedOne(p: Piece, base: int)
    requires p.ClassOpen? || p.Accessor? ==> p.depth == base
    requires p.ClassClose? ==> p.depth == base - 1
    ensures Indented([p], base)
  {
    assert [p][..0] == [];
  }

  lemma IndentedFlat(pieces: seq<Piece>, depth: nat)
    requires forall i :: 0 <= i < |pieces| ==> pieces[i].Accessor? && pieces[i].depth == depth
    ensures Indented(pieces, depth)
  {
    forall i | 0 <= i < |pieces|
      ensures Unclosed(pieces[..i]) == 0
    {
      assert Flat(pieces[..i]);
      FlatCounts(pieces[..i]);
    }
  }

  /** The inside of a node: nested classes one level in, then its accessor
      lines at that level, then its closing brace. */
  lemma BodyIndented(depth: nat, children: seq<Piece>, accessors: seq<Piece>)
    requires Indented(children, depth + 1) && Unclosed(children) == 0
    requires forall i :: 0 <= i < |accessors| ==> accessors[i].Accessor? && accessors[i].depth == depth + 1
    ensures Indented(children + accessors + [ClassClose(depth)], depth + 1)
  {
    IndentedFlat(accessors, depth + 1);
    FlatNeverNegative(accessors);
    IndentedAppend(children, accessors, depth + 1);
    CountAppend(children, accessors, Opening);
    CountAppend(children, accessors, Closing);
    IndentedOne(ClassClose(depth), depth + 1);
    IndentedAppend(children + accessors, [ClassClose(depth)], depth + 1);
  }

  /** A node is indented exactly when its nested classes are, one level in. */
  lemma NodeIndented(depth: nat, className: string, children: seq<Piece>, accessors: seq<Piece>)
    requires Indented(children, depth + 1) && Unclosed(children) == 0
    requires forall i :: 0 <= i < |accessors| ==> accessors[i].Accessor? && accessors[i].depth == depth + 1
    ensures Indented([ClassOpen(depth, className)] + children + accessors + [ClassClose(depth)], depth)
  {
    var open, close := ClassOpen(depth, className), ClassClose(depth);
    BodyIndented(depth, children, accessors);
    IndentedOne(open, depth);
    CountOne(open, Opening);
    CountOne(open, Closing);
    IndentedAppend([open], children + accessors + [close], depth);
    Regroup([open], children, accessors);
    Regroup([open], children + accessors, [close]);
  }

  /** A node at depth d is written with d tabs, and everything inside it
      with d tabs plus the number of classes open around it. */
  lemma {:induction false} LayoutIndented(data: DirectoryData, depth: nat, root: string, resolve: string -> string)
    requires Layout(data, depth, root, resolve).Success?
    ensures Indented(Layout(data, depth, root, resolve).value, depth)
    decreases data, 1
  {
    LayoutUnfold(data, depth, root, resolve);
    var children := LayoutChildren(data.directories, depth + 1, root, resolve).value;
    var accessors := Accessors(data.nameToPath, depth + 1, root, resolve).value;
    LayoutChildrenIndented(data.directories, depth + 1, root, resolve);
    LayoutChildrenNested(data.directories, depth + 1, root, resolve);
    AccessorsSpec(data.nameToPath, depth + 1, root, resolve);
    NodeIndented(depth, ClassName(data.name).value, children, accessors);
  }

  lemma {:induction false} LayoutChildrenIndented(nodes: seq<DirectoryData>, depth: nat, root: string, resolve: string -> string)
    requires LayoutChildren(nodes, depth, root, resolve).Success?
    ensures Indented(LayoutChildren(nodes, depth, root, resolve).value, depth)
    decreases nodes, 0
  {
    if nodes != [] {
      var first := Layout(nodes[0], depth, root, resolve).value;
      var rest := LayoutChildren(nodes[1..], depth, root, resolve).value;
      LayoutIndented(nodes[0], depth, root, resolve);
      LayoutWellNested(nodes[0], depth, root, resolve);
      LayoutChildrenIndented(nodes[1..], depth, root, resolve);
      IndentedOne(ChildEnd, depth);
      IndentedAppend(first, [ChildEnd], depth);
      CountAppend(first, [ChildEnd], Opening);
      CountAppend(first, [ChildEnd], Closing);
      CountOne(ChildEnd, Opening);
      CountOne(ChildEnd, Closing);
      IndentedAppend(first + [ChildEnd], rest, depth);
    }
  }

  // ---------------------------------------------------------------------
  // Indentation and order

  /** Where a piece may stand inside the class of a node at `depth`: class
      lines at that depth or deeper, accessor lines strictly deeper. */
  predicate Within(p: Piece, depth: nat) {
    match p
    case ClassOpen(d, _) => d >= depth
    case ClassClose(d) => d >= depth
    case Accessor(d, _, _, _) => d > depth
    case ChildEnd => true
  }

  /** The shape of a node whose nested classes and own accessors are known. */
  lemma NodeShape(depth: nat, className: string, children: seq<Piece>, accessors: seq<Piece>)
    requires forall i :: 0 <= i < |children| ==> Within(children[i], depth + 1)
    requires forall i :: 0 <= i < |accessors| ==> accessors[i].Accessor? && accessors[i].depth == depth + 1
    ensures var pieces := [ClassOpen(depth, className)] + children + accessors + [ClassClose(depth)];
      && (forall i :: 0 <= i < |pieces| ==> Within(pieces[i], depth))
      && (forall i, j :: 0 <= i < j < |pieces| && pieces[i].Accessor? && pieces[i].depth == depth + 1
            ==> !pieces[j].ClassOpen?)
  {
    var pieces := [ClassOpen(depth, className)] + children + accessors + [ClassClose(depth)];
    var c := |children|;
    assert forall i :: 1 <= i <= c ==> pieces[i] == children[i - 1];
    assert forall i :: c < i <= c + |accessors| ==> pieces[i] == accessors[i - 1 - c];
    forall i | 0 <= i < |pieces|
      ensures Within(pieces[i], depth)
    {
      if 1 <= i <= c {
        assert Within(children[i - 1], depth + 1);
      }
    }
    assert forall i :: 1 <= i <= c && pieces[i].Accessor? ==> pieces[i].depth > depth + 1;
    forall i, j | 0 <= i < j < |pieces| && pieces[i].Accessor? && pieces[i].depth == depth + 1
      ensures !pieces[j].ClassOpen?
    {
      assert c < i < j;
    }
  }

  /** A node's class opens at its own depth with its sanitised name and
      closes last at that depth; everything inside is indented deeper; and
      its own accessors come after all of its nested classes. */
  lemma {:induction false} LayoutShape(data: DirectoryData, depth: nat, root: string, resolve: string -> string)
    requires Layout(data, depth, root, resolve).Success?
    ensures PropertyName(data.name).Some?
    ensures var pieces := Layout(data, depth, root, resolve).value;
      && pieces[0] == ClassOpen(depth, PropertyName(data.name).value)
      && pieces[|pieces| - 1] == ClassClose(depth)
      && (forall i :: 0 <= i < |pieces| ==> Within(pieces[i], depth))
      && (forall i, j :: 0 <= i < j < |pieces| && pieces[i].Accessor? && pieces[i].depth == depth + 1
            ==> !pieces[j].ClassOpen?)
    decreases data, 1
  {
    LayoutUnfold(data, depth, root, resolve);
    var children := LayoutChildren(data.directories, depth + 1, root, resolve).value;
    var accessors := Accessors(data.nameToPath, depth + 1, root, resolve).value;
    LayoutChildrenShape(data.directories, depth + 1, root, resolve);
    AccessorsSpec(data.nameToPath, depth + 1, root, resolve);
    NodeShape(depth, ClassName(data.name).value, children, accessors);
  }

  lemma {:induction false} LayoutChildrenShape(nodes: seq<DirectoryData>, depth: nat, root: string, resolve: string -> string)
    requires LayoutChildren(nodes, depth, root, resolve).Success?
    ensures var pieces := LayoutChildren(nodes, depth, root, resolve).value;
      forall i :: 0 <= i < |pieces| ==> Within(pieces[i], depth)
    decreases nodes, 0
  {
    if nodes != [] {
      var first := Layout(nodes[0], depth, root, resolve).value;
      var rest := LayoutChildren(nodes[1..], depth, root, resolve).value;
      LayoutShape(nodes[0], depth, root, resolve);
      LayoutChildrenShape(nodes[1..], depth, root, resolve);
      AppendWithin(first, rest, depth);
    }
  }

  lemma AppendWithin(first: seq<Piece>, rest: seq<Piece>, depth: nat)
    requires forall i :: 0 <= i < |first| ==> Within(first[i], depth)
    requires forall i :: 0 <= i < |rest| ==> Within(rest[i], depth)
    ensures var pieces := first + [ChildEnd] + rest;
      forall i :: 0 <= i < |pieces| ==> Within(pieces[i], depth)
  {
    var pieces := first + [ChildEnd] + rest;
    forall i | 0 <= i < |pieces|
      ensures Within(pieces[i], depth)
    {
      if i < |first| {
        assert pieces[i] == first[i];
      } else if i > |first| {
        assert pieces[i] == rest[i - |first| - 1];
      }
    }
  }

  /** A class opening starts with the class declaration. */
  lemma HeaderDeclares(tab: string, className: string)
    ensures StartsWith(ClassHeader(tab, className), "\n" + tab + "public class " + className + "\n")
  {
    var decl := "\n" + tab + "public class " + className + "\n";
    assert ClassHeader(tab, className) == decl + (tab + "{" + NewLine);
    StartsWithPrefix(decl, tab + "{" + NewLine);
  }

  /** The text of pieces framed by a class opening and a closing brace. */
  lemma FramedText(depth: nat, className: string, middle: seq<Piece>)
    ensures var text := Text([ClassOpen(depth, className)] + middle + [ClassClose(depth)]);
      && StartsWith(text, "\n" + Tabs(depth) + "public class " + className + "\n")
      && EndsWith(text, Tabs(depth) + "}")
  {
    var open, close := ClassOpen(depth, className), ClassClose(depth);
    var header := ClassHeader(Tabs(depth), className);
    TextAppend([open], middle);
    TextAppend([open] + middle, [close]);
    TextOne(open);
    TextOne(close);
    assert Text([open] + middle + [close]) == header + Text(middle) + PieceText(close);
    HeaderDeclares(Tabs(depth), className);
    StartsWithConcat(header, "\n" + Tabs(depth) + "public class " + className + "\n", Text(middle));
    StartsWithConcat(header + Text(middle), "\n" + Tabs(depth) + "public class " + className + "\n", PieceText(close));
    EndsWithConcat(header + Text(middle), PieceText(close));
  }

  /** The rendered text of a node starts with its class declaration at its
      own indentation and ends with its closing brace at that indentation. */
  lemma RenderFrame(data: DirectoryData, depth: nat, root: string, resolve: string -> string)
    requires Render(data, depth, root, resolve).Success?
    ensures PropertyName(data.name).Some?
    ensures var text := Render(data, depth, root, resolve).value;
      && StartsWith(text, "\n" + Tabs(depth) + "public class " + PropertyName(data.name).value + "\n")
      && EndsWith(text, Tabs(depth) + "}")
  {
    LayoutShape(data, depth, root, resolve);
    var pieces := Layout(data, depth, root, resolve).value;
    var middle := pieces[1..|pieces| - 1];
    assert pieces == [pieces[0]] + middle + [pieces[|pieces| - 1]];
    FramedText(depth, PropertyName(data.name).value, middle);
  }

  // ---------------------------------------------------------------------
  // When rendering succeeds

  /** Every node's name sanitises to a class name. */
  predicate Named(data: DirectoryData)
    decreases data
  {
    && PropertyName(data.name).Some?
    && forall i :: 0 <= i < |data.directories| ==> Named(data.directories[i])
  }

  /** A tree whose entries all lie below the root renders exactly when
      every node's name sanitises. */
  lemma {:induction false} LayoutSucceeds(data: DirectoryData, depth: nat, root: string, resolve: string -> string)
    requires EntriesUnder(data, root + [Separator])
    ensures Layout(data, depth, root, resolve).Success? <==> Named(data)
    decreases data, 1
  {
    LayoutUnfold(data, depth, root, resolve);
    LayoutChildrenSucceeds(data.directories, depth + 1, root, resolve);
    AccessorsSpec(data.nameToPath, depth + 1, root, resolve);
    forall i | 0 <= i < |data.nameToPath|
      ensures |data.nameToPath[i].path| > |root|
    {
      assert data.nameToPath[i] in data.nameToPath;
    }
  }

  lemma {:induction false} LayoutChildrenSucceeds(nodes: seq<DirectoryData>, depth: nat, root: string, resolve: string -> string)
    requires forall i :: 0 <= i < |nodes| ==> EntriesUnder(nodes[i], root + [Separator])
    ensures LayoutChildren(nodes, depth, root, resolve).Success? <==> forall i :: 0 <= i < |nodes| ==> Named(nodes[i])
    decreases nodes, 0
  {
    if nodes != [] {
      LayoutSucceeds(nodes[0], depth, root, resolve);
      LayoutChildrenSucceeds(nodes[1..], depth, root, resolve);
      assert forall i :: 1 <= i < |nodes| ==> nodes[i] == nodes[1..][i - 1];
    }
  }
}
