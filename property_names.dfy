/** The identifier sanitiser `GeneratePropertyName`: a file or directory
    name becomes a PascalCase identifier made of its runs of ASCII letters
    and digits, with a leading '_' when the first run starts with a digit. */
module PropertyNames {
  import opened Wrappers
  import opened Strings

  /** The characters `string.Split` breaks on. */
  const Separators: set<char> := {' ', '-', '_'}

  /** `Regex.Replace(s, "[^a-zA-Z0-9]", " ")`. */
  function Blank(s: string): string {
    seq(|s|, i requires 0 <= i < |s| => if IsAlnum(s[i]) then s[i] else ' ')
  }

  /** Length of the longest prefix of `t` free of separators. */
  function TokenLength(t: string, seps: set<char>): (n: nat)
    ensures n <= |t|
    ensures forall k :: 0 <= k < n ==> t[k] !in seps
    ensures n == |t| || t[n] in seps
  {
    if t == [] || t[0] in seps then 0 else 1 + TokenLength(t[1..], seps)
  }

  /** `t.Split(seps, StringSplitOptions.RemoveEmptyEntries)`. */
  function Split(t: string, seps: set<char>): (words: seq<string>)
    ensures forall i :: 0 <= i < |words| ==> words[i] != []
    decreases |t|
  {
    if t == [] then []
    else if t[0] in seps then Split(t[1..], seps)
    else
      var n := TokenLength(t, seps);
      [t[..n]] + Split(t[n..], seps)
  }

  /** The words the sanitiser capitalises. */
  function Words(s: string): seq<string> {
    Split(Blank(s), Separators)
  }

  /** One word: first character upper-cased, the rest lower-cased. */
  function Capitalise(word: string): string {
    (if |word| > 0 then [Upper(word[0])] else [])
    + (if |word| > 1 then LowerAll(word[1..]) else [])
  }

  function CapitaliseAll(words: seq<string>): string {
    if words == [] then [] else Capitalise(words[0]) + CapitaliseAll(words[1..])
  }

  /** `GeneratePropertyName`; `None` stands for the exception raised by
      `words[0]` when the name has no ASCII letter or digit. */
  function PropertyName(s: string): Option<string> {
    var words := Words(s);
    if |words| == 0 then None
    else
      Some((if IsAsciiDigit(words[0][0]) then "_" else "") + CapitaliseAll(words))
  }

  /** The sanitiser as the source writes it: a `StringBuilder` filled word by word. */
  method GeneratePropertyName(filePath: string) returns (r: Option<string>)
    ensures r == PropertyName(filePath)
  {
    var fileName := Blank(filePath);
    var words := Split(fileName, Separators);
    assert words == Words(filePath);
    if |words| == 0 {
      return None;
    }
    assert words[0] != [];
    var sb := if IsAsciiDigit(words[0][0]) then "_" else "";
    ghost var prefix := sb;
    for i := 0 to |words|
      invariant sb == prefix + CapitaliseAll(words[..i])
    {
      var word := words[i];
      ghost var before := sb;
      if |word| > 0 {
        sb := sb + [Upper(word[0])];
      }
      if |word| > 1 {
        sb := sb + LowerAll(word[1..]);
      }
      assert words[..i + 1] == words[..i] + [word];
      CapitaliseStep(prefix, words[..i], word, before, sb);
    }
    NameOfWords(filePath, words, prefix, sb);
    return Some(sb);
  }

  /** The text the loop builds is the sanitised name. */
  lemma NameOfWords(s: string, words: seq<string>, prefix: string, sb: string)
    requires words == Words(s) && words != []
    requires prefix == (if IsAsciiDigit(words[0][0]) then "_" else "")
    requires sb == prefix + CapitaliseAll(words[..|words|])
    ensures PropertyName(s) == Some(sb)
  {
    assert words[..|words|] == words;
  }

  /** One pass of the loop in `GeneratePropertyName` appends one capitalised word. */
  lemma CapitaliseStep(prefix: string, done: seq<string>, word: string, before: string, after: string)
    requires before == prefix + CapitaliseAll(done)
    requires after == before + (if |word| > 0 then [Upper(word[0])] else [])
                             + (if |word| > 1 then LowerAll(word[1..]) else [])
    ensures after == prefix + CapitaliseAll(done + [word])
  {
    CapitaliseAllSnoc(done, word);
  }

  lemma {:induction false} CapitaliseAllSnoc(words: seq<string>, w: string)
    ensures CapitaliseAll(words + [w]) == CapitaliseAll(words) + Capitalise(w)
  {
    if words == [] {
      assert [] + [w] == [w];
    } else {
      assert (words + [w])[1..] == words[1..] + [w];
      CapitaliseAllSnoc(words[1..], w);
    }
  }

  // ---------------------------------------------------------------------
  // A character-level reference definition and the properties proved from it

  /** The ASCII letters and digits of `s`, in order. */
  function Alnums(s: string): string {
    if s == [] then []
    else (if IsAlnum(s[0]) then [s[0]] else []) + Alnums(s[1..])
  }

  /** Every letter or digit of `s` in order, upper-cased when it starts a
      run (`atBoundary` says whether the previous character ended one) and
      lower-cased otherwise; everything else dropped. */
  function Cased(s: string, atBoundary: bool): string {
    if s == [] then []
    else if IsAlnum(s[0]) then [if atBoundary then Upper(s[0]) else Lower(s[0])] + Cased(s[1..], false)
    else Cased(s[1..], true)
  }

  /** A run of `k` letters and digits that ends at a break or at the end of
      `s` is lower-cased whole. */
  lemma {:induction false} CasedRun(s: string, k: nat)
    requires k <= |s|
    requires forall i :: 0 <= i < k ==> IsAlnum(s[i])
    requires k == |s| || !IsAlnum(s[k])
    ensures Cased(s, false) == LowerAll(s[..k]) + Cased(s[k..], true)
  {
    if k == 0 {
      assert LowerAll(s[..0]) == [];
      if s != [] {
        assert s[0..] == s;
      }
    } else {
      CasedRun(s[1..], k - 1);
      assert s[1..][k - 1..] == s[k..];
      assert LowerAll(s[..k]) == [Lower(s[0])] + LowerAll(s[1..][..k - 1]);
    }
  }

  lemma BlankTail(s: string, n: nat)
    requires n <= |s|
    ensures Blank(s)[n..] == Blank(s[n..])
  {
  }

  /** A leading character that is not a letter or digit starts no word. */
  lemma SkipBlank(s: string)
    requires s != [] && !IsAlnum(s[0])
    ensures Words(s) == Words(s[1..])
  {
    BlankTail(s, 1);
    assert Blank(s)[0] in Separators;
  }

  /** A leading run of letters and digits is the first word. */
  lemma FirstWord(s: string) returns (n: nat)
    requires s != [] && IsAlnum(s[0])
    ensures 1 <= n <= |s|
    ensures forall i :: 0 <= i < n ==> IsAlnum(s[i])
    ensures n == |s| || !IsAlnum(s[n])
    ensures Words(s) == [s[..n]] + Words(s[n..])
  {
    var t := Blank(s);
    n := TokenLength(t, Separators);
    assert t[0] == s[0];
    forall i | 0 <= i < n
      ensures IsAlnum(s[i]) && t[i] == s[i]
    {
      assert t[i] !in Separators;
    }
    assert t[..n] == s[..n];
    if n < |s| {
      assert t[n] in Separators;
    }
    BlankTail(s, n);
  }

  /** The word-based definition agrees with the character-level one. */
  lemma {:induction false} WordsAreRuns(s: string)
    ensures CapitaliseAll(Words(s)) == Cased(s, true)
    ensures Words(s) == [] <==> Alnums(s) == []
    ensures Words(s) != [] ==> Words(s)[0] != [] && Words(s)[0][0] == Alnums(s)[0]
    decreases |s|
  {
    if s == [] {
    } else if !IsAlnum(s[0]) {
      SkipBlank(s);
      WordsAreRuns(s[1..]);
    } else {
      var n := FirstWord(s);
      WordsAreRuns(s[n..]);
      CasedRun(s[1..], n - 1);
      assert s[1..][n - 1..] == s[n..];
      assert s[1..][..n - 1] == s[..n][1..];
      assert Capitalise(s[..n]) + Cased(s[n..], true) == Cased(s, true);
    }
  }

  /** `PropertyName` restated on characters: `None` exactly when the name has
      no letter or digit; otherwise an optional '_' and the cased runs. */
  lemma PropertyNameIsCased(s: string)
    ensures PropertyName(s)
      == if Alnums(s) == [] then None
         else Some((if IsAsciiDigit(Alnums(s)[0]) then "_" else "") + Cased(s, true))
  {
    WordsAreRuns(s);
  }

  lemma {:induction false} AlnumsEmpty(s: string)
    ensures Alnums(s) == [] <==> forall i :: 0 <= i < |s| ==> !IsAlnum(s[i])
  {
    if s != [] {
      AlnumsEmpty(s[1..]);
      assert forall i :: 1 <= i < |s| ==> s[i] == s[1..][i - 1];
    }
  }

  lemma {:induction false} CasedShape(s: string, b: bool)
    ensures |Cased(s, b)| == |Alnums(s)|
    ensures forall c <- Cased(s, b) :: IsAlnum(c)
    ensures Alnums(s) != [] ==> Cased(s, true)[0] == Upper(Alnums(s)[0])
  {
    if s != [] {
      CasedShape(s[1..], true);
      CasedShape(s[1..], false);
    }
  }

  /** The sanitiser fails exactly when the name has no ASCII letter or digit. */
  lemma PropertyNameFails(s: string)
    ensures PropertyName(s).None? <==> forall i :: 0 <= i < |s| ==> !IsAlnum(s[i])
  {
    PropertyNameIsCased(s);
    AlnumsEmpty(s);
  }

  /** A result is made of ASCII letters and digits plus at most a leading
      '_', which is there exactly when the first letter-or-digit of the input
      is a digit; its length counts the input's letters and digits; it never
      starts with a digit. */
  lemma PropertyNameShape(s: string)
    requires PropertyName(s).Some?
    ensures Alnums(s) != []
    ensures var r := PropertyName(s).value;
      && |r| == |Alnums(s)| + (if IsAsciiDigit(Alnums(s)[0]) then 1 else 0)
      && (forall i :: 0 <= i < |r| ==> IsAlnum(r[i]) || (i == 0 && r[i] == '_'))
      && (r[0] == '_' <==> IsAsciiDigit(Alnums(s)[0]))
      && !IsAsciiDigit(r[0])
  {
    PropertyNameIsCased(s);
    CasedShape(s, true);
    var r := PropertyName(s).value;
    var c := Cased(s, true);
    if IsAsciiDigit(Alnums(s)[0]) {
      assert r == "_" + c;
      forall i | 1 <= i < |r| ensures IsAlnum(r[i]) {
        assert r[i] == c[i - 1];
        assert c[i - 1] in c;
      }
    } else {
      assert r == c;
      forall i | 0 <= i < |r| ensures IsAlnum(r[i]) {
        assert r[i] in c;
      }
    }
  }

  /** Two names that differ only in letter case. */
  predicate SameUpToCase(s: string, t: string) {
    |s| == |t| && forall i :: 0 <= i < |s| ==> Lower(s[i]) == Lower(t[i])
  }

  lemma {:induction false} CasedIgnoresCase(s: string, t: string, b: bool)
    requires SameUpToCase(s, t)
    ensures Cased(s, b) == Cased(t, b)
    ensures Alnums(s) == [] <==> Alnums(t) == []
    ensures Alnums(s) != [] ==> (IsAsciiDigit(Alnums(s)[0]) <==> IsAsciiDigit(Alnums(t)[0]))
  {
    if s != [] {
      assert Lower(s[0]) == Lower(t[0]);
      assert SameUpToCase(s[1..], t[1..]) by {
        forall i | 0 <= i < |s| - 1 ensures Lower(s[1..][i]) == Lower(t[1..][i]) {
          assert Lower(s[i + 1]) == Lower(t[i + 1]);
        }
      }
      CasedIgnoresCase(s[1..], t[1..], IsAlnum(s[0]) || b);
      CasedIgnoresCase(s[1..], t[1..], !IsAlnum(s[0]));
    }
  }

  /** Changing the letter case of the input does not change the result. */
  lemma PropertyNameIgnoresCase(s: string, t: string)
    requires SameUpToCase(s, t)
    ensures PropertyName(s) == PropertyName(t)
  {
    PropertyNameIsCased(s);
    PropertyNameIsCased(t);
    CasedIgnoresCase(s, t, true);
  }

  // ---------------------------------------------------------------------
  // Worked examples

  /** Reads a sanitised name off the character-level definition. */
  lemma PropertyNameFromCased(s: string, cased: string)
    requires Alnums(s) != [] && Cased(s, true) == cased
    ensures PropertyName(s) == Some((if IsAsciiDigit(Alnums(s)[0]) then "_" else "") + cased)
  {
    PropertyNameIsCased(s);
  }

  /** A single run of letters and digits at a boundary: first character
      upper-cased, the rest lower-cased. */
  lemma CasedOneRun(s: string)
    requires s != []
    requires forall i :: 0 <= i < |s| ==> IsAlnum(s[i])
    ensures Cased(s, true) == [Upper(s[0])] + LowerAll(s[1..])
  {
    assert IsAlnum(s[0]);
    CasedWhole(s[1..]);
  }

  /** Letters and digits only, inside a run: lower-cased whole. */
  lemma CasedWhole(t: string)
    requires forall i :: 0 <= i < |t| ==> IsAlnum(t[i])
    ensures Cased(t, false) == LowerAll(t)
  {
    CasedRun(t, |t|);
    assert t[..|t|] == t;
    assert t[|t|..] == [];
  }

  /** A character that is not a letter or digit ends the run before it and
      puts the text after it at a boundary. */
  lemma {:induction false} CasedBreak(a: string, c: char, b: string, atBoundary: bool)
    requires !IsAlnum(c)
    ensures Cased(a + [c] + b, atBoundary) == Cased(a, atBoundary) + Cased(b, true)
  {
    if a == [] {
      assert [] + [c] + b == [c] + b;
      assert ([c] + b)[1..] == b;
    } else {
      assert (a + [c] + b)[1..] == a[1..] + [c] + b;
      CasedBreak(a[1..], c, b, true);
      CasedBreak(a[1..], c, b, false);
    }
  }

  /** A name that is a single run of letters and digits keeps its first
      character upper-cased and the rest lower-cased, behind a '_' when it
      starts with a digit. */
  lemma SingleRun(s: string)
    requires s != []
    requires forall i :: 0 <= i < |s| ==> IsAlnum(s[i])
    ensures PropertyName(s)
         == Some((if IsAsciiDigit(s[0]) then "_" else "") + ([Upper(s[0])] + LowerAll(s[1..])))
  {
    CasedOneRun(s);
    assert Alnums(s)[0] == s[0];
    PropertyNameFromCased(s, [Upper(s[0])] + LowerAll(s[1..]));
  }

  /** Separators vanish and every run is capitalised. */
  lemma SeparatorsVanish(s: string)
    requires s == "My-File_02"
    ensures PropertyName(s) == Some("MyFile02")
  {
    assert s == "My" + ['-'] + ("File" + ['_'] + "02");
    CasedBreak("My", '-', "File" + ['_'] + "02", true);
    CasedBreak("File", '_', "02", true);
    RunsOfMyFile02("My", "File", "02");
    assert Alnums(s)[0] == 'M';
    PropertyNameFromCased(s, "My" + "File" + "02");
    assert "" + ("My" + "File" + "02") == "MyFile02";
  }

  lemma RunsOfMyFile02(a: string, b: string, c: string)
    requires a == "My" && b == "File" && c == "02"
    ensures Cased(a, true) == a && Cased(b, true) == b && Cased(c, true) == c
  {
    CasedOneRun(a);
    CasedOneRun(b);
    CasedOneRun(c);
    assert LowerAll(a[1..]) == a[1..] && LowerAll(b[1..]) == b[1..] && LowerAll(c[1..]) == c[1..];
  }

  /** A leading digit earns a '_', and the letters after it are lower-cased. */
  lemma LeadingDigit(s: string)
    requires s == "9lives"
    ensures PropertyName(s) == Some("_9lives")
  {
    assert forall i :: 0 <= i < |s| ==> IsAlnum(s[i]);
    SingleRun(s);
    LowerAllOfLower(s[1..]);
    assert "_" + ([Upper(s[0])] + s[1..]) == "_9lives";
  }

  /** A single run that starts with a capital followed by lower-case
      characters keeps that start, and every capital after it is
      lower-cased. */
  lemma InnerCapitalsLowered(s: string, head: char, low: string, tail: string)
    requires s == [head] + low + tail
    requires 'A' <= head <= 'Z'
    requires forall i :: 0 <= i < |low| ==> !('A' <= low[i] <= 'Z')
    requires forall i :: 0 <= i < |s| ==> IsAlnum(s[i])
    ensures PropertyName(s) == Some([head] + low + LowerAll(tail))
  {
    SingleRun(s);
    LowerRest(s, head, low, tail);
  }

  lemma LowerRest(s: string, head: char, low: string, tail: string)
    requires s == [head] + low + tail
    requires 'A' <= head <= 'Z'
    requires forall i :: 0 <= i < |low| ==> !('A' <= low[i] <= 'Z')
    ensures (if IsAsciiDigit(s[0]) then "_" else "") + ([Upper(s[0])] + LowerAll(s[1..]))
         == [head] + low + LowerAll(tail)
  {
    assert s[1..] == low + tail;
    LowerAllAppend(low, tail);
    LowerAllOfLower(low);
  }

  /** An inner capital is lost. */
  lemma InnerCapitalLost(s: string)
    requires s == "MyFile02"
    ensures PropertyName(s) == Some("Myfile02")
  {
    PartsOfMyFile02(s);
    InnerCapitalsLowered(s, 'M', "y", "File02");
  }

  lemma PartsOfMyFile02(s: string)
    requires s == "MyFile02"
    ensures s == ['M'] + "y" + "File02"
    ensures forall i :: 0 <= i < |s| ==> IsAlnum(s[i])
    ensures ['M'] + "y" + LowerAll("File02") == "Myfile02"
  {
    assert LowerAll("File02") == "file02";
  }

  /** Sanitising twice differs from sanitising once. */
  lemma NotIdempotent()
    ensures exists s :: PropertyName(s).Some? && PropertyName(PropertyName(s).value) != PropertyName(s)
  {
    var s := "My-File_02";
    SeparatorsVanish(s);
    InnerCapitalLost(PropertyName(s).value);
    assert PropertyName(s).Some? && PropertyName(PropertyName(s).value) != PropertyName(s);
  }
}
