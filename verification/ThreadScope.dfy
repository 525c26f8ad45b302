/**
 Thread ids, history scopes and cache keys (app/api/routes.py): SHA-256 digests of compact JSON arrays.
 The digest is a parameter; what is proved are the encoding and the LIKE pattern around it.
 */
module ThreadScope {
  import opened SqlLike

  /** A Python string: code points, lone surrogates included. */
  type CodePoint = c: int | 0 <= c < 0x11_0000
  type PyStr = seq<CodePoint>

  /** A UTF-16 code unit. */
  type Unit = u: int | 0 <= u < 0x1_0000

  // ---------------------------------------------------------------- json.dumps(..., ensure_ascii=True)

  function UnitsOf(c: CodePoint): seq<Unit> {
    if c < 0x1_0000 then [c] else [0xD800 + (c - 0x1_0000) / 0x400, 0xDC00 + (c - 0x1_0000) % 0x400]
  }

  function Utf16(s: PyStr): seq<Unit> {
    if s == [] then [] else UnitsOf(s[0]) + Utf16(s[1..])
  }

  type Nibble = d: int | 0 <= d < 16

  function HexDigit(d: Nibble): char {
    if d < 10 then (0x30 + d) as char else (0x61 + (d - 10)) as char
  }

  function Hex4(u: Unit): string {
    [HexDigit(u / 0x1000), HexDigit(u / 0x100 % 0x10), HexDigit(u / 0x10 % 0x10), HexDigit(u % 0x10)]
  }

  /** One code unit inside a JSON string: the short escapes, printable ASCII as it is, \uXXXX for the rest. */
  function Escape(u: Unit): string {
    if u == 0x22 then ['\\', '"']
    else if u == 0x5C then ['\\', '\\']
    else if u == 0x0A then ['\\', 'n']
    else if u == 0x0D then ['\\', 'r']
    else if u == 0x09 then ['\\', 't']
    else if u == 0x0C then ['\\', 'f']
    else if u == 0x08 then ['\\', 'b']
    else if 0x20 <= u <= 0x7E then [u as char]
    else ['\\', 'u'] + Hex4(u)
  }

  function Escaped(units: seq<Unit>): string {
    if units == [] then "" else Escape(units[0]) + Escaped(units[1..])
  }

  function JsonString(s: PyStr): string {
    "\"" + Escaped(Utf16(s)) + "\""
  }

  /** The items of a JSON array, separated by commas, and what follows them. */
  function JsonItems(items: seq<PyStr>, tail: string): string {
    if items == [] then tail
    else if |items| == 1 then JsonString(items[0]) + tail
    else JsonString(items[0]) + ("," + JsonItems(items[1..], tail))
  }

  function JsonArray(items: seq<PyStr>): string {
    "[" + JsonItems(items, "]")
  }

  function Decimal(n: nat): string {
    if n < 10 then [HexDigit(n)] else Decimal(n / 10) + [HexDigit(n % 10)]
  }

  /** A JSON array of strings that ends with a number. */
  function JsonArrayWithNumber(items: seq<PyStr>, n: nat): string {
    "[" + JsonItems(items, "," + (Decimal(n) + "]"))
  }

  // ---------------------------------------------------------------- Injectivity

  lemma HexInjective(a: Nibble, b: Nibble)
    requires HexDigit(a) == HexDigit(b)
    ensures a == b
  {
    assert HexDigit(a) as int == if a < 10 then 0x30 + a else 0x61 + (a - 10);
    assert HexDigit(b) as int == if b < 10 then 0x30 + b else 0x61 + (b - 10);
  }

  lemma NibblesOf(u: Unit)
    ensures u == 0x1000 * (u / 0x1000) + 0x100 * (u / 0x100 % 0x10) + 0x10 * (u / 0x10 % 0x10) + u % 0x10
  {
    assert u / 0x100 == 0x10 * (u / 0x1000) + u / 0x100 % 0x10;
    assert u / 0x10 == 0x10 * (u / 0x100) + u / 0x10 % 0x10;
  }

  lemma Hex4Injective(u: Unit, v: Unit)
    requires Hex4(u) == Hex4(v)
    ensures u == v
  {
    var h, k := Hex4(u), Hex4(v);
    assert h[0] == k[0] && h[1] == k[1] && h[2] == k[2] && h[3] == k[3];
    HexInjective(u / 0x1000, v / 0x1000);
    HexInjective(u / 0x100 % 0x10, v / 0x100 % 0x10);
    HexInjective(u / 0x10 % 0x10, v / 0x10 % 0x10);
    HexInjective(u % 0x10, v % 0x10);
    NibblesOf(u);
    NibblesOf(v);
  }

  lemma SplitEqual(a: string, x: string, b: string, y: string)
    requires a + x == b + y && |a| == |b|
    ensures a == b && x == y
  {
    assert (a + x)[..|a|] == a && (b + y)[..|b|] == b;
    assert (a + x)[|a|..] == x && (b + y)[|b|..] == y;
  }

  /** The length of an escape can be read off its first two characters. */
  function EscapeLength(s: string): nat {
    if |s| >= 2 && s[0] == '\\' then (if s[1] == 'u' then 6 else 2) else 1
  }

  lemma EscapeShape(u: Unit, rest: string)
    ensures Escape(u) != "" && Escape(u)[0] != '"' && EscapeLength(Escape(u) + rest) == |Escape(u)|
  {
    assert (Escape(u) + rest)[0] == Escape(u)[0];
    if |Escape(u)| > 1 {
      assert (Escape(u) + rest)[1] == Escape(u)[1];
    }
  }

  lemma EscapeInjective(u: Unit, v: Unit)
    requires Escape(u) == Escape(v)
    ensures u == v
  {
    if |Escape(u)| == 6 {
      assert Escape(u)[2..] == Hex4(u) && Escape(v)[2..] == Hex4(v);
      Hex4Injective(u, v);
    } else if |Escape(u)| == 2 {
      assert Escape(u)[1] == Escape(v)[1];
    } else {
      assert Escape(u)[0] == Escape(v)[0];
    }
  }

  /** A closing quote is never mistaken for the start of an escaped unit. */
  lemma QuoteIsNoEscape(x: string, u: Unit, rest: string)
    ensures "\"" + x != Escape(u) + rest
  {
    EscapeShape(u, rest);
    assert ("\"" + x)[0] == '"' && (Escape(u) + rest)[0] == Escape(u)[0];
  }

  lemma EscapeSplit(u: Unit, x: string, v: Unit, y: string)
    requires Escape(u) + x == Escape(v) + y
    ensures u == v && x == y
  {
    EscapeShape(u, x);
    EscapeShape(v, y);
    SplitEqual(Escape(u), x, Escape(v), y);
    EscapeInjective(u, v);
  }

  /** The value of a hexadecimal digit. */
  function FromHex(c: char): int {
    if '0' <= c <= '9' then c as int - 0x30
    else if 'a' <= c <= 'f' then c as int - 0x57
    else if 'A' <= c <= 'F' then c as int - 0x37
    else 0
  }

  /** What one character or escape inside a JSON string stands for. */
  function Unescape(s: string): int
    requires s != ""
  {
    if s[0] != '\\' || |s| < 2 then s[0] as int
    else
      match s[1]
      case 'b' => 0x08
      case 'f' => 0x0C
      case 'n' => 0x0A
      case 'r' => 0x0D
      case 't' => 0x09
      case 'u' =>
        if |s| < 6 then 0 else 0x1000 * FromHex(s[2]) + 0x100 * FromHex(s[3]) + 0x10 * FromHex(s[4]) + FromHex(s[5])
      case c => c as int
  }

  lemma FromHexDigit(d: Nibble)
    ensures FromHex(HexDigit(d)) == d
  {
  }

  /** Every unit is escaped to ASCII that a JSON reader reads as this unit, printable characters as themselves. */
  lemma UnescapeEscape(u: Unit)
    ensures Escape(u) != "" && Unescape(Escape(u)) == u
    ensures forall i :: 0 <= i < |Escape(u)| ==> 0x20 <= Escape(u)[i] as int <= 0x7E
    ensures |Escape(u)| == 1 <==> 0x20 <= u <= 0x7E && u != '"' as int && u != '\\' as int
  {
    if |Escape(u)| == 6 {
      FromHexDigit(u / 0x1000);
      FromHexDigit(u / 0x100 % 0x10);
      FromHexDigit(u / 0x10 % 0x10);
      FromHexDigit(u % 0x10);
      NibblesOf(u);
    }
  }

  lemma EscapedStep(us: seq<Unit>, x: string)
    ensures Escaped(us) + x == if us == [] then x else Escape(us[0]) + (Escaped(us[1..]) + x)
  {
  }

  /** An escaped text ends at its first plain quote, so it and what follows can be read back. */
  lemma {:induction false} EscapedPrefix(us: seq<Unit>, x: string, vs: seq<Unit>, y: string)
    requires Escaped(us) + ("\"" + x) == Escaped(vs) + ("\"" + y)
    ensures us == vs && x == y
  {
    EscapedStep(us, "\"" + x);
    EscapedStep(vs, "\"" + y);
    if us == [] && vs == [] {
      SplitEqual("\"", x, "\"", y);
    } else if us == [] {
      QuoteIsNoEscape(x, vs[0], Escaped(vs[1..]) + ("\"" + y));
    } else if vs == [] {
      QuoteIsNoEscape(y, us[0], Escaped(us[1..]) + ("\"" + x));
    } else {
      EscapeSplit(us[0], Escaped(us[1..]) + ("\"" + x), vs[0], Escaped(vs[1..]) + ("\"" + y));
      EscapedPrefix(us[1..], x, vs[1..], y);
      assert us == [us[0]] + us[1..] && vs == [vs[0]] + vs[1..];
    }
  }

  /** A JSON reader after an opening quote: the units up to the closing quote, and the rest of the text. */
  function ReadString(s: string): (seq<int>, string)
    decreases |s|
  {
    if s == "" then ([], "")
    else if s[0] == '"' then ([], s[1..])
    else
      var n := EscapeLength(s);
      if n > |s| then ([], "")
      else
        var (units, rest) := ReadString(s[n..]);
        ([Unescape(s[..n])] + units, rest)
  }

  lemma CutFirst(a: string, b: string)
    ensures (a + b)[..|a|] == a && (a + b)[|a|..] == b
  {
  }

  /** Encoding followed by reading gives the text back, whatever follows it. */
  lemma {:induction false} ReadEscaped(us: seq<Unit>, x: string)
    ensures ReadString(Escaped(us) + ("\"" + x)) == (us, x)
  {
    EscapedStep(us, "\"" + x);
    if us == [] {
      assert ("\"" + x)[1..] == x;
    } else {
      var tail := Escaped(us[1..]) + ("\"" + x);
      EscapeShape(us[0], tail);
      UnescapeEscape(us[0]);
      CutFirst(Escape(us[0]), tail);
      assert (Escape(us[0]) + tail)[0] == Escape(us[0])[0];
      ReadEscaped(us[1..], x);
      assert us == [us[0]] + us[1..];
    }
  }

  lemma JsonStringStep(s: PyStr, x: string)
    ensures JsonString(s) + x == "\"" + (Escaped(Utf16(s)) + ("\"" + x))
  {
  }

  lemma JsonStringPrefix(s: PyStr, x: string, t: PyStr, y: string)
    requires JsonString(s) + x == JsonString(t) + y
    ensures Utf16(s) == Utf16(t) && x == y
  {
    JsonStringStep(s, x);
    JsonStringStep(t, y);
    SplitEqual("\"", Escaped(Utf16(s)) + ("\"" + x), "\"", Escaped(Utf16(t)) + ("\"" + y));
    EscapedPrefix(Utf16(s), x, Utf16(t), y);
  }

  ghost predicate SameTexts(xs: seq<PyStr>, ys: seq<PyStr>) {
    |xs| == |ys| && forall i :: 0 <= i < |xs| ==> Utf16(xs[i]) == Utf16(ys[i])
  }

  lemma {:induction false} ItemsPrefix(xs: seq<PyStr>, x: string, ys: seq<PyStr>, y: string)
    requires |xs| == |ys| && JsonItems(xs, x) == JsonItems(ys, y)
    ensures SameTexts(xs, ys) && x == y
  {
    if |xs| == 1 {
      JsonStringPrefix(xs[0], x, ys[0], y);
    } else if |xs| > 1 {
      var restX, restY := JsonItems(xs[1..], x), JsonItems(ys[1..], y);
      JsonStringPrefix(xs[0], "," + restX, ys[0], "," + restY);
      SplitEqual(",", restX, ",", restY);
      ItemsPrefix(xs[1..], x, ys[1..], y);
      forall i | 0 <= i < |xs| ensures Utf16(xs[i]) == Utf16(ys[i]) {
        if i > 0 { assert xs[i] == xs[1..][i - 1] && ys[i] == ys[1..][i - 1]; }
      }
    }
  }

  lemma {:induction false} ItemsSame(xs: seq<PyStr>, ys: seq<PyStr>, tail: string)
    requires SameTexts(xs, ys)
    ensures JsonItems(xs, tail) == JsonItems(ys, tail)
  {
    if |xs| > 1 {
      assert forall i :: 0 <= i < |xs[1..]| ==> xs[1..][i] == xs[i + 1] && ys[1..][i] == ys[i + 1];
      ItemsSame(xs[1..], ys[1..], tail);
    }
  }

  /** The encoding of an array identifies its strings up to their UTF-16 form, and nothing less. */
  lemma JsonArrayInjective(xs: seq<PyStr>, ys: seq<PyStr>)
    requires |xs| == |ys|
    ensures JsonArray(xs) == JsonArray(ys) <==> SameTexts(xs, ys)
  {
    if JsonArray(xs) == JsonArray(ys) {
      SplitEqual("[", JsonItems(xs, "]"), "[", JsonItems(ys, "]"));
      ItemsPrefix(xs, "]", ys, "]");
    }
    if SameTexts(xs, ys) {
      ItemsSame(xs, ys, "]");
    }
  }

  // ---------------------------------------------------------------- Strings and UTF-16

  predicate High(u: int) {
    0xD800 <= u < 0xDC00
  }

  predicate Low(u: int) {
    0xDC00 <= u < 0xE000
  }

  /**
   No high surrogate directly before a low one.  Decoding JSON or UTF-8 joins such a pair to one character, so all
   strings that reach the program are of this kind, those with single surrogates included.
   */
  ghost predicate Unpaired(s: PyStr) {
    forall i :: 0 <= i < |s| - 1 ==> !(High(s[i]) && Low(s[i + 1]))
  }

  /** After a high unit of one character comes no low unit. */
  lemma HighAlone(s: PyStr)
    requires Unpaired(s) && s != [] && High(s[0])
    ensures Utf16(s)[0] == s[0] && (|Utf16(s)| > 1 ==> !Low(Utf16(s)[1]))
  {
    var tail := s[1..];
    assert Utf16(s) == [s[0]] + Utf16(tail);
    if tail != [] {
      assert tail[0] == s[1];
      assert (UnitsOf(tail[0]) + Utf16(tail[1..]))[0] == UnitsOf(tail[0])[0];
    }
  }

  lemma {:induction false} Utf16Injective(s: PyStr, t: PyStr)
    requires Unpaired(s) && Unpaired(t) && Utf16(s) == Utf16(t)
    ensures s == t
  {
    if s != [] && t != [] {
      FirstCharacter(s, t);
      var a := UnitsOf(s[0]);
      assert (a + Utf16(s[1..]))[|a|..] == Utf16(s[1..]) && (a + Utf16(t[1..]))[|a|..] == Utf16(t[1..]);
      Utf16Injective(s[1..], t[1..]);
      assert s == [s[0]] + s[1..] && t == [t[0]] + t[1..];
    }
  }

  lemma FirstCharacter(s: PyStr, t: PyStr)
    requires Unpaired(s) && Unpaired(t) && s != [] && t != [] && Utf16(s) == Utf16(t)
    ensures s[0] == t[0]
  {
    var a, b := UnitsOf(s[0]), UnitsOf(t[0]);
    assert (a + Utf16(s[1..]))[0] == a[0] && (b + Utf16(t[1..]))[0] == b[0];
    assert |a| == 2 ==> (a + Utf16(s[1..]))[1] == a[1];
    assert |b| == 2 ==> (b + Utf16(t[1..]))[1] == b[1];
    if High(s[0]) {
      HighAlone(s);
    }
    if High(t[0]) {
      HighAlone(t);
    }
  }

  /** With such a pair two different strings have one encoding. */
  lemma SurrogatePairCollides()
    ensures var pair: PyStr := [0xD800, 0xDC00]; var astral: PyStr := [0x1_0000];
            pair != astral && JsonArray([pair]) == JsonArray([astral])
  {
    var pair: PyStr, astral: PyStr := [0xD800, 0xDC00], [0x1_0000];
    assert pair[1..] == [0xDC00] && pair[1..][1..] == [] && astral[1..] == [];
    assert Utf16(pair) == [0xD800, 0xDC00] && Utf16(astral) == [0xD800, 0xDC00];
    JsonArrayInjective([pair], [astral]);
  }

  lemma UnpairedTexts(xs: seq<PyStr>, ys: seq<PyStr>)
    requires |xs| == |ys| && forall i :: 0 <= i < |xs| ==> Unpaired(xs[i]) && Unpaired(ys[i])
    ensures SameTexts(xs, ys) <==> xs == ys
  {
    if SameTexts(xs, ys) {
      forall i | 0 <= i < |xs| ensures xs[i] == ys[i] {
        Utf16Injective(xs[i], ys[i]);
      }
    }
  }

  // ---------------------------------------------------------------- Numbers

  lemma {:induction false} DecimalInjective(m: nat, n: nat)
    requires Decimal(m) == Decimal(n)
    ensures m == n
  {
    var a, b := Decimal(m), Decimal(n);
    assert a[|a| - 1] == HexDigit(m % 10) && b[|b| - 1] == HexDigit(n % 10);
    HexInjective(m % 10, n % 10);
    if m >= 10 && n >= 10 {
      assert a[..|a| - 1] == Decimal(m / 10) && b[..|b| - 1] == Decimal(n / 10);
      DecimalInjective(m / 10, n / 10);
    }
  }

  /** The value of a text of decimal digits. */
  function FromDecimal(s: string): int
    decreases |s|
  {
    if s == "" then 0 else 10 * FromDecimal(s[..|s| - 1]) + FromHex(s[|s| - 1])
  }

  lemma {:induction false} DecimalReads(n: nat)
    ensures FromDecimal(Decimal(n)) == n
  {
    FromHexDigit(n % 10);
    if n < 10 {
      assert Decimal(n)[..0] == "" && FromDecimal("") == 0;
    } else {
      DecimalReads(n / 10);
      var s := Decimal(n);
      assert s[..|s| - 1] == Decimal(n / 10) && s[|s| - 1] == HexDigit(n % 10);
    }
  }

  lemma ItemsTwo(a: PyStr, b: PyStr, tail: string)
    ensures JsonItems([a, b], tail) == JsonString(a) + ("," + (JsonString(b) + tail))
  {
    assert [a, b][1..] == [b];
  }

  lemma ItemsThree(a: PyStr, b: PyStr, c: PyStr, tail: string)
    ensures JsonItems([a, b, c], tail) == JsonString(a) + ("," + (JsonString(b) + ("," + (JsonString(c) + tail))))
  {
    assert [a, b, c][1..] == [b, c];
    ItemsTwo(b, c, tail);
  }

  /** `separators=(",", ":")`: brackets, commas and nothing else between the items. */
  lemma CompactForm(a: PyStr, b: PyStr, c: PyStr, n: nat)
    ensures JsonArray([a, b]) == "[" + (JsonString(a) + ("," + (JsonString(b) + "]")))
    ensures JsonArray([a, b, c]) == "[" + (JsonString(a) + ("," + (JsonString(b) + ("," + (JsonString(c) + "]")))))
    ensures JsonArrayWithNumber([a, b], n) ==
            "[" + (JsonString(a) + ("," + (JsonString(b) + ("," + (Decimal(n) + "]")))))
  {
    ItemsTwo(a, b, "]");
    ItemsTwo(a, b, "," + (Decimal(n) + "]"));
    ItemsThree(a, b, c, "]");
  }

  // ---------------------------------------------------------------- Digests

  ghost predicate IsHexDigest(d: string) {
    |d| == 64 && forall i :: 0 <= i < 64 ==> '0' <= d[i] <= '9' || 'a' <= d[i] <= 'f'
  }

  type Digest = d: string | IsHexDigest(d) witness seq(64, i => '0')

  /** `build_backend_thread_id`. */
  function ThreadId(sha: string -> Digest, tenant: PyStr, user: PyStr, thread: PyStr): string {
    "thread:" + sha(JsonArray([tenant, user])) + ":" + sha(JsonArray([tenant, user, thread]))
  }

  /** `build_backend_thread_scope`. */
  function Scope(sha: string -> Digest, tenant: PyStr, user: PyStr): string {
    "thread:" + sha(JsonArray([tenant, user])) + ":%"
  }

  /** `build_chat_cache_key`; `query` is the UTF-8 text of the query. */
  function CacheKey(sha: string -> Digest, tenant: PyStr, user: PyStr, role: PyStr, thread: PyStr, query: string,
                    version: nat): string
  {
    "cache:" + sha(JsonArrayWithNumber([tenant, user, role, thread], version)) + ":" + sha(query)
  }

  ghost predicate NoCollision(sha: string -> Digest, x: string, y: string) {
    sha(x) == sha(y) ==> x == y
  }

  lemma ScopePattern(sha: string -> Digest, tenant: PyStr, user: PyStr, text: string)
    ensures Like(text, Scope(sha, tenant, user)) <==> "thread:" + sha(JsonArray([tenant, user])) + ":" <= text
  {
    var d := sha(JsonArray([tenant, user]));
    var p := "thread:" + d + ":";
    assert Plain(p) by {
      forall i | 0 <= i < |p| ensures p[i] != '%' && p[i] != '_' && p[i] != '\\' {
        if 7 <= i < 71 { assert p[i] == d[i - 7]; }
      }
    }
    assert Scope(sha, tenant, user) == p + "%";
    LikePrefix(text, p);
  }

  /** A stored thread id matches the scope exactly when the digests of the two (tenant, user) pairs are equal. */
  lemma ScopeMatchesDigest(sha: string -> Digest, tenant: PyStr, user: PyStr, tenant': PyStr, user': PyStr,
                           thread: PyStr)
    ensures Like(ThreadId(sha, tenant', user', thread), Scope(sha, tenant, user)) <==>
            sha(JsonArray([tenant, user])) == sha(JsonArray([tenant', user']))
  {
    var id := ThreadId(sha, tenant', user', thread);
    var d, d' := sha(JsonArray([tenant, user])), sha(JsonArray([tenant', user']));
    ScopePattern(sha, tenant, user, id);
    var p := "thread:" + d + ":";
    assert id[7..71] == d' && p[7..71] == d;
    if p <= id {
      assert id[..|p|] == p && id[..|p|][7..71] == id[7..71];
    }
    if d == d' {
      assert id == p + sha(JsonArray([tenant', user', thread]));
    }
  }

  lemma PairTexts(xs: seq<PyStr>, ys: seq<PyStr>)
    requires |xs| == 2 && |ys| == 2
    ensures JsonArray(xs) == JsonArray(ys) <==> Utf16(xs[0]) == Utf16(ys[0]) && Utf16(xs[1]) == Utf16(ys[1])
  {
    JsonArrayInjective(xs, ys);
    if Utf16(xs[0]) == Utf16(ys[0]) && Utf16(xs[1]) == Utf16(ys[1]) {
      assert SameTexts(xs, ys);
    }
  }

  lemma UnpairedUtf16(s: PyStr, t: PyStr)
    requires Unpaired(s) && Unpaired(t)
    ensures Utf16(s) == Utf16(t) <==> s == t
  {
    if Utf16(s) == Utf16(t) {
      Utf16Injective(s, t);
    }
  }

  /**
   History scope: unless SHA-256 collides on the two encodings, the pattern of one (tenant, user) matches a
   stored thread id exactly when the thread was built for the same tenant and user, for all strings.
   */
  lemma HistoryScope(sha: string -> Digest, tenant: PyStr, user: PyStr, tenant': PyStr, user': PyStr, thread: PyStr)
    requires NoCollision(sha, JsonArray([tenant, user]), JsonArray([tenant', user']))
    ensures Like(ThreadId(sha, tenant', user', thread), Scope(sha, tenant, user)) <==>
            Utf16(tenant) == Utf16(tenant') && Utf16(user) == Utf16(user')
    ensures Unpaired(tenant) && Unpaired(user) && Unpaired(tenant') && Unpaired(user') ==>
              (Like(ThreadId(sha, tenant', user', thread), Scope(sha, tenant, user)) <==>
               tenant == tenant' && user == user')
  {
    ScopeMatchesDigest(sha, tenant, user, tenant', user', thread);
    PairTexts([tenant, user], [tenant', user']);
    if Unpaired(tenant) && Unpaired(user) && Unpaired(tenant') && Unpaired(user') {
      UnpairedUtf16(tenant, tenant');
      UnpairedUtf16(user, user');
    }
  }

  lemma KeyDigests(prefix: string, a: Digest, b: Digest, a': Digest, b': Digest)
    ensures prefix + a + ":" + b == prefix + a' + ":" + b' <==> a == a' && b == b'
  {
    if prefix + a + ":" + b == prefix + a' + ":" + b' {
      assert prefix + a + ":" + b == prefix + (a + (":" + b)) && prefix + a' + ":" + b' == prefix + (a' + (":" + b'));
      SplitEqual(prefix, a + (":" + b), prefix, a' + (":" + b'));
      SplitEqual(a, ":" + b, a', ":" + b');
      SplitEqual(":", b, ":", b');
    }
  }

  /**
   Thread ids separate tenants, users and threads: unless SHA-256 collides, two ids are equal exactly when all three
   are, up to their UTF-16 forms.
   */
  lemma ThreadIdsSeparate(sha: string -> Digest, xs: seq<PyStr>, ys: seq<PyStr>)
    requires |xs| == 3 && |ys| == 3 && NoCollision(sha, JsonArray(xs), JsonArray(ys))
    ensures ThreadId(sha, xs[0], xs[1], xs[2]) == ThreadId(sha, ys[0], ys[1], ys[2]) <==> SameTexts(xs, ys)
    ensures (forall i :: 0 <= i < 3 ==> Unpaired(xs[i]) && Unpaired(ys[i])) ==> (SameTexts(xs, ys) <==> xs == ys)
  {
    assert xs == [xs[0], xs[1], xs[2]] && ys == [ys[0], ys[1], ys[2]];
    KeyDigests("thread:", sha(JsonArray([xs[0], xs[1]])), sha(JsonArray(xs)),
               sha(JsonArray([ys[0], ys[1]])), sha(JsonArray(ys)));
    JsonArrayInjective(xs, ys);
    if SameTexts(xs, ys) {
      PairTexts([xs[0], xs[1]], [ys[0], ys[1]]);
    }
    if forall i :: 0 <= i < 3 ==> Unpaired(xs[i]) && Unpaired(ys[i]) {
      UnpairedTexts(xs, ys);
    }
  }

  lemma {:induction false} NumberedArraySame(xs: seq<PyStr>, ys: seq<PyStr>, n: nat)
    requires SameTexts(xs, ys)
    ensures JsonArrayWithNumber(xs, n) == JsonArrayWithNumber(ys, n)
  {
    ItemsSame(xs, ys, "," + (Decimal(n) + "]"));
  }

  lemma NumberedArrayInjective(xs: seq<PyStr>, m: nat, ys: seq<PyStr>, n: nat)
    requires |xs| == |ys|
    ensures JsonArrayWithNumber(xs, m) == JsonArrayWithNumber(ys, n) <==> SameTexts(xs, ys) && m == n
  {
    if JsonArrayWithNumber(xs, m) == JsonArrayWithNumber(ys, n) {
      var tx, ty := "," + (Decimal(m) + "]"), "," + (Decimal(n) + "]");
      SplitEqual("[", JsonItems(xs, tx), "[", JsonItems(ys, ty));
      ItemsPrefix(xs, tx, ys, ty);
      SplitEqual(",", Decimal(m) + "]", ",", Decimal(n) + "]");
      SplitEqual(Decimal(m), "]", Decimal(n), "]");
      DecimalInjective(m, n);
    }
    if SameTexts(xs, ys) && m == n {
      NumberedArraySame(xs, ys, n);
    }
  }

  /**
   Cache keys separate tenants, users, roles, threads, epochs and queries: unless SHA-256 collides, two keys
   are equal exactly when all six are, the four strings up to their UTF-16 forms.
   */
  lemma CacheKeysSeparate(sha: string -> Digest, xs: seq<PyStr>, query: string, version: nat,
                          ys: seq<PyStr>, query': string, version': nat)
    requires |xs| == 4 && |ys| == 4
    requires NoCollision(sha, JsonArrayWithNumber(xs, version), JsonArrayWithNumber(ys, version'))
    requires NoCollision(sha, query, query')
    ensures CacheKey(sha, xs[0], xs[1], xs[2], xs[3], query, version)
            == CacheKey(sha, ys[0], ys[1], ys[2], ys[3], query', version') <==>
            SameTexts(xs, ys) && query == query' && version == version'
    ensures (forall i :: 0 <= i < 4 ==> Unpaired(xs[i]) && Unpaired(ys[i])) ==> (SameTexts(xs, ys) <==> xs == ys)
  {
    assert xs == [xs[0], xs[1], xs[2], xs[3]] && ys == [ys[0], ys[1], ys[2], ys[3]];
    KeyDigests("cache:", sha(JsonArrayWithNumber(xs, version)), sha(query),
               sha(JsonArrayWithNumber(ys, version')), sha(query'));
    NumberedArrayInjective(xs, version, ys, version');
    if forall i :: 0 <= i < 4 ==> Unpaired(xs[i]) && Unpaired(ys[i]) {
      UnpairedTexts(xs, ys);
    }
  }
}
