/**
 Which filenames ingestion accepts (app/ingestion/parser.py), and why none of them is a document id
 (app/api/routes.py).
 */
module Filenames {
  import opened SqlLike

  /** Python's `rfind` for one character: its last position, or -1. */
  function RFind(s: string, c: char): (i: int)
    ensures -1 <= i < |s|
    ensures i >= 0 ==> s[i] == c
    ensures forall k :: i < k < |s| ==> s[k] != c
    decreases |s|
  {
    if s == "" then -1
    else if s[|s| - 1] == c then |s| - 1
    else
      var n := |s| - 1;
      var i := RFind(s[..n], c);
      assert forall k :: 0 <= k < n ==> s[..n][k] == s[k];
      i
  }

  /** The characters `s[from..to]` are all dots. */
  predicate OnlyDots(s: string, from: nat, to: int)
    requires to <= |s|
  {
    forall k :: from <= k < to ==> s[k] == '.'
  }

  /** `os.path.splitext(filename)[1]`: from the last dot of the last path component, unless only dots come before it. */
  function Extension(filename: string): string {
    var slash := RFind(filename, '/');
    var dot := RFind(filename, '.');
    if dot > slash && !OnlyDots(filename, slash + 1, dot) then filename[dot..] else ""
  }

  const EXTENSIONS := {
    ".pdf", ".docx", ".xlsx", ".xls", ".csv", ".html", ".htm", ".txt", ".md", ".json", ".py", ".js", ".java", ".cpp"
  }

  /** `extract_text` raises ValueError for any other extension. */
  predicate Supported(filename: string) {
    Lower(Extension(filename)) in EXTENSIONS
  }

  /** The extension is empty, or the part of the name from its last dot on, without a slash. */
  lemma ExtensionExact(filename: string)
    ensures var ext := Extension(filename);
            && |ext| <= |filename| && filename[|filename| - |ext|..] == ext
            && (ext != "" ==> ext[0] == '.' && forall k :: 1 <= k < |ext| ==> ext[k] != '.' && ext[k] != '/')
  {
    var dot := RFind(filename, '.');
    if Extension(filename) != "" {
      assert forall k :: 0 <= k < |filename| - dot ==> filename[dot..][k] == filename[dot + k];
    }
  }

  /** The last component of `stem` has a character that is not a dot. */
  predicate HasName(stem: string) {
    exists k :: RFind(stem, '/') < k < |stem| && stem[k] != '.'
  }

  lemma RFindLast(s: string, c: char, i: int)
    requires -1 <= i < |s| && (i >= 0 ==> s[i] == c) && forall k :: i < k < |s| ==> s[k] != c
    ensures RFind(s, c) == i
  {
  }

  /** A name with an extension: that is what is found. */
  lemma ExtensionOf(stem: string, ext: string)
    requires HasName(stem) && ext != "" && ext[0] == '.'
    requires forall k :: 1 <= k < |ext| ==> ext[k] != '.' && ext[k] != '/'
    ensures Extension(stem + ext) == ext
  {
    var whole := stem + ext;
    var k :| RFind(stem, '/') < k < |stem| && stem[k] != '.';
    assert forall i :: 0 <= i < |stem| ==> whole[i] == stem[i];
    assert forall i :: 0 <= i < |ext| ==> whole[|stem| + i] == ext[i];
    assert forall i :: |stem| <= i < |whole| ==> whole[i] == ext[i - |stem|];
    RFindLast(whole, '/', RFind(stem, '/'));
    RFindLast(whole, '.', |stem|);
    assert whole[k] != '.';
    assert whole[|stem|..] == ext;
  }

  /** Ingestion accepts a file exactly if it is some name followed by one of these extensions, in any case. */
  lemma SupportedIff(filename: string)
    ensures Supported(filename) <==> exists n :: SplitsAt(filename, n)
  {
    if Supported(filename) {
      SupportedOnly(filename);
    }
    if n :| SplitsAt(filename, n) {
      SupportedIf(filename, n);
    }
  }

  /** The first `n` characters are a name, the rest a known extension. */
  predicate SplitsAt(filename: string, n: int) {
    0 <= n <= |filename| && HasName(filename[..n]) && KnownExtension(Lower(filename[n..]))
  }

  lemma SupportedIf(filename: string, n: nat)
    requires SplitsAt(filename, n)
    ensures Supported(filename)
  {
    var low := Lower(filename[n..]);
    ExtensionLetters(low);
    ExtensionAfter(filename, n, low);
    ListedIff(low);
  }

  lemma ExtensionAfter(filename: string, n: nat, low: string)
    requires n <= |filename| && HasName(filename[..n]) && low == Lower(filename[n..]) && DotAndLetters(low)
    ensures Extension(filename) == filename[n..]
  {
    KnownShape(filename[n..], low);
    ExtensionOf(filename[..n], filename[n..]);
    assert filename[..n] + filename[n..] == filename;
  }

  predicate KnownExtension(ext: string) {
    || ext == ".pdf" || ext == ".docx" || ext == ".xlsx" || ext == ".xls" || ext == ".csv" || ext == ".html"
    || ext == ".htm" || ext == ".txt" || ext == ".md" || ext == ".json" || ext == ".py" || ext == ".js"
    || ext == ".java" || ext == ".cpp"
  }

  lemma KnownShape(ext: string, low: string)
    requires low == Lower(ext) && DotAndLetters(low)
    ensures ext != "" && ext[0] == '.' && forall k :: 1 <= k < |ext| ==> ext[k] != '.' && ext[k] != '/'
  {
    assert forall k :: 0 <= k < |ext| ==> low[k] == LowerChar(ext[k]);
  }

  ghost predicate DotAndLetters(s: string) {
    s != "" && s[0] == '.' && forall k :: 1 <= k < |s| ==> 'a' <= s[k] <= 'z'
  }

  lemma ExtensionLetters(ext: string)
    requires KnownExtension(ext)
    ensures DotAndLetters(ext)
  {
    if ext == ".pdf" || ext == ".xls" || ext == ".csv" || ext == ".htm" || ext == ".txt" || ext == ".cpp" {
      ThreeLetters(ext);
    } else if ext == ".md" || ext == ".py" || ext == ".js" {
      assert DotAndLetters(".md") && DotAndLetters(".py") && DotAndLetters(".js");
    } else {
      assert DotAndLetters(".docx") && DotAndLetters(".xlsx") && DotAndLetters(".html");
      assert DotAndLetters(".json") && DotAndLetters(".java");
    }
  }

  lemma ThreeLetters(ext: string)
    requires ext == ".pdf" || ext == ".xls" || ext == ".csv" || ext == ".htm" || ext == ".txt" || ext == ".cpp"
    ensures DotAndLetters(ext)
  {
    assert DotAndLetters(".pdf") && DotAndLetters(".xls") && DotAndLetters(".csv");
    assert DotAndLetters(".htm") && DotAndLetters(".txt") && DotAndLetters(".cpp");
  }

  lemma NameBefore(filename: string)
    requires Extension(filename) != ""
    ensures var dot := RFind(filename, '.');
            0 <= dot < |filename| && HasName(filename[..dot]) && filename[dot..] == Extension(filename)
  {
    var slash, dot := RFind(filename, '/'), RFind(filename, '.');
    var k :| slash + 1 <= k < dot && filename[k] != '.';
    var stem := filename[..dot];
    assert forall i :: 0 <= i < dot ==> stem[i] == filename[i];
    RFindLast(stem, '/', slash);
    assert stem[k] != '.';
  }

  lemma ListedIff(low: string)
    ensures low in EXTENSIONS <==> KnownExtension(low)
  {
  }

  lemma NonemptyExtension(filename: string)
    requires Supported(filename)
    ensures Extension(filename) != "" && KnownExtension(Lower(Extension(filename)))
  {
    var low := Lower(Extension(filename));
    ListedIff(low);
    ExtensionLetters(low);
    assert |low| == |Extension(filename)|;
  }

  lemma SupportedOnly(filename: string)
    requires Supported(filename)
    ensures exists n :: SplitsAt(filename, n)
  {
    NonemptyExtension(filename);
    NameBefore(filename);
    assert SplitsAt(filename, RFind(filename, '.'));
  }

  /** The text of a UUID: `str(uuid.uuid4())`. */
  predicate UuidText(s: string) {
    |s| == 36 && forall i :: 0 <= i < |s| ==> '0' <= s[i] <= '9' || 'a' <= s[i] <= 'f' || s[i] == '-'
  }

  lemma UuidHasNoDot(id: string)
    requires UuidText(id)
    ensures '.' !in id && id != ""
  {
  }

  /** An accepted filename contains a dot. */
  lemma SupportedHasDot(filename: string)
    requires Supported(filename)
    ensures '.' in filename
  {
    ExtensionExact(filename);
    var ext := Extension(filename);
    assert Lower("") == "";
    assert ext != "";
    assert filename[|filename| - |ext|] == ext[0] == '.';
  }
}
