/** PostgreSQL's LIKE, as used by the role filter and the history purge of app/database.py. */
module SqlLike {
  import Collections

  /** `%` matches any text, `_` any character, and a backslash quotes the next character. */
  predicate Like(text: string, pattern: string)
    decreases |text| + |pattern|
  {
    if pattern == "" then text == ""
    else if pattern[0] == '%' then Like(text, pattern[1..]) || (text != "" && Like(text[1..], pattern))
    else if text == "" then false
    else if pattern[0] == '_' then Like(text[1..], pattern[1..])
    else if pattern[0] == '\\' && |pattern| > 1 then text[0] == pattern[1] && Like(text[1..], pattern[2..])
    else text[0] == pattern[0] && Like(text[1..], pattern[1..])
  }

  function LowerChar(c: char): char {
    if 'A' <= c <= 'Z' then (c as int + 32) as char else c
  }

  function Lower(s: string): (r: string)
    ensures |r| == |s| && forall i :: 0 <= i < |s| ==> r[i] == LowerChar(s[i])
  {
    if s == "" then "" else [LowerChar(s[0])] + Lower(s[1..])
  }

  predicate ILike(text: string, pattern: string) {
    Like(Lower(text), Lower(pattern))
  }

  ghost predicate Plain(p: string) {
    forall i :: 0 <= i < |p| ==> p[i] != '%' && p[i] != '_' && p[i] != '\\'
  }

  ghost predicate Contains(text: string, p: string) {
    exists i :: ContainsAt(text, p, i)
  }

  ghost predicate ContainsAt(text: string, p: string, i: int) {
    0 <= i <= |text| - |p| && text[i..i + |p|] == p
  }

  lemma {:induction false} LikeAnything(text: string)
    ensures Like(text, "%")
  {
    assert "%"[1..] == "";
    if text != "" {
      LikeAnything(text[1..]);
    }
  }

  /** A plain prefix followed by `%`. */
  lemma {:induction false} LikePrefix(text: string, p: string)
    requires Plain(p)
    ensures Like(text, p + "%") <==> p <= text
  {
    if p == "" {
      assert p + "%" == "%";
      LikeAnything(text);
    } else {
      assert (p + "%")[1..] == p[1..] + "%";
      if text != "" {
        LikePrefix(text[1..], p[1..]);
        assert p <= text <==> p[0] == text[0] && p[1..] <= text[1..] by {
          assert p == [p[0]] + p[1..] && text == [text[0]] + text[1..];
        }
      }
    }
  }

  /** A plain text between two `%`. */
  lemma {:induction false} LikeContains(text: string, p: string)
    requires Plain(p)
    ensures Like(text, "%" + p + "%") <==> Contains(text, p)
    decreases |text|
  {
    var pattern := "%" + p + "%";
    assert pattern[1..] == p + "%";
    LikePrefix(text, p);
    assert p <= text <==> ContainsAt(text, p, 0);
    if text != "" {
      LikeContains(text[1..], p);
      ContainsTail(text, p);
    } else {
      assert Contains(text, p) ==> ContainsAt(text, p, 0);
    }
  }

  lemma ContainsTail(text: string, p: string)
    requires text != ""
    ensures Contains(text, p) <==> ContainsAt(text, p, 0) || Contains(text[1..], p)
  {
    forall i | i > 0 ensures ContainsAt(text, p, i) <==> ContainsAt(text[1..], p, i - 1) {
      if 0 < i <= |text| - |p| {
        Collections.SliceOfTail(text, i, i + |p|);
      }
    }
    if Contains(text[1..], p) {
      var i :| ContainsAt(text[1..], p, i);
      assert ContainsAt(text[1..], p, i + 1 - 1);
      assert ContainsAt(text, p, i + 1);
    }
  }
}
