/**
 The streaming filter of `chat_stream` (app/api/routes.py) that hides `<think>...</think>` blocks while
 tokens arrive, and the batch filter it must agree with.
 */
module ThinkFilter {
  import Collections

  const OPEN := "<think>"
  const CLOSE := "</think>"

  predicate At(s: string, tag: string, k: int) {
    0 <= k <= |s| - |tag| && s[k..k + |tag|] == tag
  }

  /** Python's `find`: the first position of `tag` in `s`, or -1. */
  function Find(s: string, tag: string): (i: int)
    ensures i == -1 || (0 <= i && i + |tag| <= |s|)
    decreases |s|
  {
    if |s| < |tag| then -1
    else if s[..|tag|] == tag then 0
    else
      var rest := Find(s[1..], tag);
      if rest < 0 then -1 else rest + 1
  }

  lemma AtShift(s: string, tag: string, k: int)
    requires s != ""
    ensures k > 0 ==> (At(s, tag, k) <==> At(s[1..], tag, k - 1))
  {
    if 0 < k <= |s| - |tag| {
      Collections.SliceOfTail(s, k, k + |tag|);
    }
  }

  /** `Find` is the first occurrence. */
  lemma {:induction false} FindIsFirst(s: string, tag: string, k: int)
    ensures Find(s, tag) >= 0 ==> At(s, tag, Find(s, tag))
    ensures At(s, tag, k) ==> 0 <= Find(s, tag) <= k
    decreases |s|
  {
    if |s| >= |tag| && s[..|tag|] != tag {
      FindIsFirst(s[1..], tag, k - 1);
      AtShift(s, tag, k);
      AtShift(s, tag, Find(s, tag));
    }
  }

  /**
   The batch filter: outside a block, copy up to the first `<think>`; inside, drop through the next
   `</think>`; a block that is never closed drops the rest.
   */
  function Batch(inside: bool, text: string): string
    decreases |text|
  {
    if inside then
      var i := Find(text, CLOSE);
      if i < 0 then "" else Batch(false, text[i + |CLOSE|..])
    else
      var i := Find(text, OPEN);
      if i < 0 then text else text[..i] + Batch(true, text[i + |OPEN|..])
  }

  /** What the scanner carries from token to token. */
  datatype Held = Held(inside: bool, buffer: string)

  datatype Scan = Scan(fragments: seq<string>, held: Held)

  function Concat(fragments: seq<string>): string
    decreases |fragments|
  {
    if fragments == [] then "" else Concat(fragments[..|fragments| - 1]) + fragments[|fragments| - 1]
  }

  // ---------------------------------------------------------------- First occurrences and appended text

  /** Appending text does not move a tag that was already found. */
  lemma {:induction false} FindAppend(s: string, tag: string, rest: string)
    requires |tag| > 0 && Find(s, tag) >= 0
    ensures Find(s + rest, tag) == Find(s, tag)
    decreases |s|
  {
    assert (s + rest)[..|tag|] == s[..|tag|];
    if Find(s, tag) > 0 {
      assert (s + rest)[1..] == s[1..] + rest;
      FindAppend(s[1..], tag, rest);
    }
  }

  /** Cutting a text that is followed by more. */
  lemma CutAppend(s: string, rest: string, k: nat)
    requires k <= |s|
    ensures (s + rest)[k..] == s[k..] + rest && (s + rest)[..k] == s[..k]
  {
  }

  lemma CutOnce(s: string, n: nat)
    requires 1 <= n <= |s|
    ensures s[1..][n - 1..] == s[n..] && [s[0]] + s[1..][..n - 1] == s[..n]
  {
  }

  lemma Assoc(a: string, b: string, c: string)
    ensures a + (b + c) == (a + b) + c
  {
  }

  /** `Find` when the tag does not start at the front. */
  lemma FindShift(s: string, tag: string)
    requires s != "" && |tag| > 0 && !At(s, tag, 0)
    ensures Find(s, tag) == if Find(s[1..], tag) < 0 then -1 else Find(s[1..], tag) + 1
  {
  }

  lemma HiddenChar(s: string)
    requires s != "" && !At(s, CLOSE, 0)
    ensures Batch(true, s) == Batch(true, s[1..])
  {
    FindShift(s, CLOSE);
    var i := Find(s[1..], CLOSE);
    if i >= 0 {
      assert s[1..][i + |CLOSE|..] == s[i + 1 + |CLOSE|..];
    }
  }

  lemma VisibleChar(s: string)
    requires s != "" && !At(s, OPEN, 0)
    ensures Batch(false, s) == [s[0]] + Batch(false, s[1..])
  {
    FindShift(s, OPEN);
    var i := Find(s[1..], OPEN);
    if i >= 0 {
      VisibleSplit(s, i);
    } else {
      assert [s[0]] + s[1..] == s;
    }
  }

  lemma VisibleSplit(s: string, i: nat)
    requires s != "" && i + 1 + |OPEN| <= |s|
    ensures s[..i + 1] + Batch(true, s[i + 1 + |OPEN|..]) == [s[0]] + (s[1..][..i] + Batch(true, s[1..][i + |OPEN|..]))
  {
    assert s[1..][i + |OPEN|..] == s[i + 1 + |OPEN|..];
    assert [s[0]] + s[1..][..i] == s[..i + 1];
    Assoc([s[0]], s[1..][..i], Batch(true, s[i + 1 + |OPEN|..]));
  }

  lemma AtPrefix(s: string, tag: string, rest: string)
    requires |s| >= |tag|
    ensures At(s + rest, tag, 0) <==> At(s, tag, 0)
  {
    assert (s + rest)[..|tag|] == s[..|tag|];
  }

  /** Text without the closing tag can be dropped down to its last seven characters. */
  lemma {:induction false} DropHidden(s: string, rest: string, n: nat)
    requires Find(s, CLOSE) < 0 && n + 7 <= |s|
    ensures Batch(true, s + rest) == Batch(true, s[n..] + rest)
    decreases n
  {
    if n > 0 {
      FindIsFirst(s, CLOSE, 0);
      FindShift(s, CLOSE);
      AtPrefix(s, CLOSE, rest);
      HiddenChar(s + rest);
      CutAppend(s, rest, 1);
      DropHidden(s[1..], rest, n - 1);
      CutOnce(s, n);
    }
  }

  /** Text without the opening tag can be shown up to its last six characters. */
  lemma {:induction false} ShowVisible(s: string, rest: string, n: nat)
    requires Find(s, OPEN) < 0 && n + 6 <= |s|
    ensures Batch(false, s + rest) == s[..n] + Batch(false, s[n..] + rest)
    decreases n
  {
    if n > 0 {
      FindIsFirst(s, OPEN, 0);
      FindShift(s, OPEN);
      AtPrefix(s, OPEN, rest);
      VisibleChar(s + rest);
      CutAppend(s, rest, 1);
      ShowVisible(s[1..], rest, n - 1);
      CutOnce(s, n);
      Assoc([s[0]], s[1..][..n - 1], Batch(false, s[n..] + rest));
    }
  }

  // ---------------------------------------------------------------- One token

  /** The scanner's loop on a buffer: the fragments it emits and what it holds back. */
  function ScanBuffer(inside: bool, buffer: string): Scan
    decreases |buffer|
  {
    if buffer == "" then Scan([], Held(inside, ""))
    else if inside then
      var i := Find(buffer, CLOSE);
      if i < 0 then Scan([], Held(true, buffer[if |buffer| > 7 then |buffer| - 7 else 0..]))
      else ScanBuffer(false, buffer[i + |CLOSE|..])
    else
      var i := Find(buffer, OPEN);
      if i >= 0 then
        var r := ScanBuffer(true, buffer[i + |OPEN|..]);
        if i > 0 then r.(fragments := [buffer[..i]] + r.fragments) else r
      else if |buffer| > 6 then Scan([buffer[..|buffer| - 6]], Held(false, buffer[|buffer| - 6..]))
      else Scan([], Held(false, buffer))
  }

  lemma {:induction false} ConcatCons(x: string, fragments: seq<string>)
    ensures Concat([x] + fragments) == x + Concat(fragments)
    decreases |fragments|
  {
    var whole := [x] + fragments;
    var n := |fragments|;
    if n == 0 {
      assert whole == [x] && whole[..0] == [];
      assert Concat(whole) == "" + x;
    } else {
      ConcatCons(x, fragments[..n - 1]);
      assert whole[..n] == [x] + fragments[..n - 1];
      assert whole[n] == fragments[n - 1];
    }
  }

  lemma {:induction false} ConcatAppend(a: seq<string>, b: seq<string>)
    ensures Concat(a + b) == Concat(a) + Concat(b)
    decreases |b|
  {
    if b == [] {
      assert a + b == a;
    } else {
      var n := |b| - 1;
      ConcatAppend(a, b[..n]);
      assert (a + b)[..|a + b| - 1] == a + b[..n];
    }
  }

  /** What one pass of the scanner promises, whatever text follows the buffer. */
  ghost predicate Exact(inside: bool, buffer: string, rest: string, r: Scan) {
    && Batch(inside, buffer + rest) == Concat(r.fragments) + Batch(r.held.inside, r.held.buffer + rest)
    && |r.held.buffer| <= (if r.held.inside then 7 else 6)
  }

  lemma ExactInside(buffer: string, rest: string)
    requires buffer != "" && Find(buffer, CLOSE) < 0
    ensures Exact(true, buffer, rest, ScanBuffer(true, buffer))
  {
    if |buffer| > 7 {
      DropHidden(buffer, rest, |buffer| - 7);
    }
  }

  lemma ExactOutside(buffer: string, rest: string)
    requires buffer != "" && Find(buffer, OPEN) < 0
    ensures Exact(false, buffer, rest, ScanBuffer(false, buffer))
  {
    if |buffer| > 6 {
      ShowVisible(buffer, rest, |buffer| - 6);
      ConcatCons(buffer[..|buffer| - 6], []);
      assert [buffer[..|buffer| - 6]] + [] == [buffer[..|buffer| - 6]];
    }
  }

  lemma BatchClose(text: string)
    requires Find(text, CLOSE) >= 0
    ensures Batch(true, text) == Batch(false, text[Find(text, CLOSE) + |CLOSE|..])
  {
  }

  lemma BatchOpen(text: string)
    requires Find(text, OPEN) >= 0
    ensures Batch(false, text) == text[..Find(text, OPEN)] + Batch(true, text[Find(text, OPEN) + |OPEN|..])
  {
  }

  lemma CloseTail(buffer: string, rest: string)
    requires Find(buffer, CLOSE) >= 0
    ensures Batch(true, buffer + rest) == Batch(false, buffer[Find(buffer, CLOSE) + |CLOSE|..] + rest)
  {
    FindAppend(buffer, CLOSE, rest);
    CutAppend(buffer, rest, Find(buffer, CLOSE) + |CLOSE|);
    BatchClose(buffer + rest);
  }

  lemma ExactClose(buffer: string, tail: string, rest: string, r: Scan)
    requires Batch(true, buffer + rest) == Batch(false, tail + rest) && Exact(false, tail, rest, r)
    ensures Exact(true, buffer, rest, r)
  {
  }

  lemma ExactOpen(buffer: string, rest: string, r: Scan)
    requires Find(buffer, OPEN) >= 0 && Exact(true, buffer[Find(buffer, OPEN) + |OPEN|..], rest, r)
    ensures var i := Find(buffer, OPEN);
            Exact(false, buffer, rest, if i > 0 then r.(fragments := [buffer[..i]] + r.fragments) else r)
  {
    var i := Find(buffer, OPEN);
    FindAppend(buffer, OPEN, rest);
    CutAppend(buffer, rest, i + |OPEN|);
    BatchOpen(buffer + rest);
    CutAppend(buffer, rest, i);
    ConcatCons(buffer[..i], r.fragments);
    Assoc(buffer[..i], Concat(r.fragments), Batch(r.held.inside, r.held.buffer + rest));
  }

  /**
   One pass of the scanner emits exactly what the batch filter shows of the buffer, whatever text follows,
   and keeps at most six characters outside a block and seven inside.
   */
  lemma {:induction false} ScanExact(inside: bool, buffer: string, rest: string)
    ensures Exact(inside, buffer, rest, ScanBuffer(inside, buffer))
    decreases |buffer|
  {
    if buffer == "" {
    } else if inside {
      var i := Find(buffer, CLOSE);
      if i < 0 {
        ExactInside(buffer, rest);
      } else {
        ScanExact(false, buffer[i + |CLOSE|..], rest);
        CloseTail(buffer, rest);
        ExactClose(buffer, buffer[i + |CLOSE|..], rest, ScanBuffer(false, buffer[i + |CLOSE|..]));
      }
    } else {
      var i := Find(buffer, OPEN);
      if i < 0 {
        ExactOutside(buffer, rest);
      } else {
        ScanExact(true, buffer[i + |OPEN|..], rest);
        ExactOpen(buffer, rest, ScanBuffer(true, buffer[i + |OPEN|..]));
      }
    }
  }

  // ---------------------------------------------------------------- Whole streams

  /** Everything shown after `tokens`, and what is still held back; empty tokens are skipped. */
  function Streamed(tokens: seq<string>): (r: (string, Held))
    decreases |tokens|
  {
    if tokens == [] then ("", Held(false, ""))
    else
      var n := |tokens| - 1;
      var (shown, held) := Streamed(tokens[..n]);
      if tokens[n] == "" then (shown, held)
      else
        var r := ScanBuffer(held.inside, held.buffer + tokens[n]);
        (shown + Concat(r.fragments), r.held)
  }

  /** What the generator flushes once the model is done. */
  function Flush(held: Held): string {
    if held.inside then "" else held.buffer
  }

  /** After every token, shown text plus held buffer stand for the text so far, whatever text follows. */
  lemma {:induction false} StreamExact(tokens: seq<string>, rest: string)
    ensures var (shown, held) := Streamed(tokens);
            && Batch(false, Concat(tokens) + rest) == shown + Batch(held.inside, held.buffer + rest)
            && |held.buffer| <= (if held.inside then 7 else 6)
    decreases |tokens|
  {
    if tokens == [] {
      assert "" + rest == rest;
    } else {
      var n := |tokens| - 1;
      var (shown, held) := Streamed(tokens[..n]);
      var token := tokens[n];
      StreamExact(tokens[..n], token + rest);
      Assoc(Concat(tokens[..n]), token, rest);
      Assoc(held.buffer, token, rest);
      if token == "" {
        assert token + rest == rest;
      } else {
        ScanExact(held.inside, held.buffer + token, rest);
        var r := ScanBuffer(held.inside, held.buffer + token);
        Assoc(shown, Concat(r.fragments), Batch(r.held.inside, r.held.buffer + rest));
      }
    }
  }

  /** A buffer too short to contain its tag. */
  lemma ShortBuffer(held: Held)
    requires |held.buffer| <= (if held.inside then 7 else 6)
    ensures Batch(held.inside, held.buffer) == Flush(held)
  {
  }

  /**
   Stream filter equals batch filter: for every way of splitting a text into tokens, the visible fragments
   and the final flush concatenate to the batch result.
   */
  lemma StreamEqualsBatch(tokens: seq<string>)
    ensures Streamed(tokens).0 + Flush(Streamed(tokens).1) == Batch(false, Concat(tokens))
  {
    StreamExact(tokens, "");
    var held := Streamed(tokens).1;
    assert Concat(tokens) + "" == Concat(tokens) && held.buffer + "" == held.buffer;
    ShortBuffer(held);
  }

  /** The shown text depends on the joined text only. */
  lemma SplitIndependent(a: seq<string>, b: seq<string>)
    requires Concat(a) == Concat(b)
    ensures Streamed(a).0 + Flush(Streamed(a).1) == Streamed(b).0 + Flush(Streamed(b).1)
  {
    StreamEqualsBatch(a);
    StreamEqualsBatch(b);
  }

  /** What has been shown is never taken back: it is a prefix of the result of every longer stream. */
  lemma ShownIsFinal(tokens: seq<string>, more: seq<string>)
    ensures Streamed(tokens).0 <= Batch(false, Concat(tokens + more))
    ensures var held := Streamed(tokens).1; |held.buffer| <= (if held.inside then 7 else 6)
  {
    ConcatAppend(tokens, more);
    StreamExact(tokens, Concat(more));
  }

  // ---------------------------------------------------------------- Tags in context

  ghost predicate EndsWith(s: string, suffix: string) {
    |suffix| <= |s| && s[|s| - |suffix|..] == suffix
  }

  /** The only `<` of the tag is its first character, so two occurrences cannot overlap. */
  ghost predicate TagLike(tag: string) {
    |tag| > 0 && tag[0] == '<' && forall i :: 0 < i < |tag| ==> tag[i] != '<'
  }

  lemma TagsAreTagLike()
    ensures TagLike(OPEN) && TagLike(CLOSE)
  {
  }

  lemma AtLeft(a: string, b: string, tag: string, i: nat)
    requires i + |tag| <= |a|
    ensures At(a + b, tag, i) <==> At(a, tag, i)
  {
    assert (a + b)[i..i + |tag|] == a[i..i + |tag|];
  }

  lemma AtRight(a: string, b: string, tag: string, i: nat)
    ensures At(a + b, tag, |a| + i) <==> At(b, tag, i)
  {
    if i + |tag| <= |b| {
      assert (a + b)[|a| + i..|a| + i + |tag|] == b[i..i + |tag|];
    }
  }

  lemma CharInTag(s: string, tag: string, i: int, j: int)
    ensures At(s, tag, i) && i <= j < i + |tag| ==> s[j] == tag[j - i]
  {
    if At(s, tag, i) && i <= j < i + |tag| {
      assert s[i..i + |tag|][j - i] == s[j];
    }
  }

  /** A tag after a text without it is found where it stands. */
  lemma FindAfter(v: string, tag: string, rest: string)
    requires TagLike(tag) && Find(v, tag) < 0
    ensures Find(v + (tag + rest), tag) == |v|
  {
    var whole := v + (tag + rest);
    assert At(tag + rest, tag, 0);
    AtRight(v, tag + rest, tag, 0);
    FindIsFirst(whole, tag, |v|);
    var i := Find(whole, tag);
    CharInTag(whole, tag, i, |v|);
    if i + |tag| <= |v| {
      AtLeft(v, tag + rest, tag, i);
      FindIsFirst(v, tag, i);
    }
  }

  lemma VisibleThenBlock(v: string, rest: string)
    requires Find(v, OPEN) < 0
    ensures Batch(false, v + (OPEN + rest)) == v + Batch(true, rest)
  {
    TagsAreTagLike();
    FindAfter(v, OPEN, rest);
    CutTag(v, OPEN, rest);
  }

  lemma HiddenThenText(x: string, rest: string)
    requires Find(x, CLOSE) < 0
    ensures Batch(true, x + (CLOSE + rest)) == Batch(false, rest)
  {
    TagsAreTagLike();
    FindAfter(x, CLOSE, rest);
    CutTag(x, CLOSE, rest);
  }

  lemma CutTag(v: string, tag: string, rest: string)
    ensures (v + (tag + rest))[..|v|] == v && (v + (tag + rest))[|v| + |tag|..] == rest
  {
  }

  /** Cutting a text at a partial tag and completing the tag. */
  lemma Completed(u: string, tag: string, k: nat, more: string)
    requires k <= |tag| && EndsWith(u, tag[..k])
    ensures u + (tag[k..] + more) == u[..|u| - k] + (tag + more)
  {
    assert u == u[..|u| - k] + tag[..k];
    assert tag == tag[..k] + tag[k..];
  }

  lemma FindInPrefix(u: string, tag: string, n: nat)
    requires |tag| > 0 && n <= |u| && Find(u, tag) < 0
    ensures Find(u[..n], tag) < 0
  {
    assert u[..n] + u[n..] == u;
    if Find(u[..n], tag) >= 0 {
      FindAppend(u[..n], tag, u[n..]);
    }
  }

  lemma TagBegun(u: string, tag: string, k: nat)
    requires |tag| > 0 && k <= |tag| && Find(u, tag) < 0 && EndsWith(u, tag[..k])
    ensures Find(u[..|u| - k], tag) < 0
    ensures forall more :: u + (tag[k..] + more) == u[..|u| - k] + (tag + more)
  {
    FindInPrefix(u, tag, |u| - k);
    forall more ensures u + (tag[k..] + more) == u[..|u| - k] + (tag + more) {
      Completed(u, tag, k, more);
    }
  }

  /**
   Holding back less would be wrong: of a visible text that ends in `k` characters of the opening tag none of
   these characters is shown if the tag completes, so a scanner that showed one of them would have to take it back.
   */
  lemma HoldbackNeeded(u: string, k: nat, shown: string)
    requires Find(u, OPEN) < 0 && 1 <= k <= 6 && EndsWith(u, OPEN[..k]) && |shown| > |u| - k
    ensures Batch(false, u + OPEN[k..]) == u[..|u| - k] && !(shown <= Batch(false, u + OPEN[k..]))
  {
    TagBegun(u, OPEN, k);
    assert OPEN[k..] + "" == OPEN[k..];
    VisibleThenBlock(u[..|u| - k], "");
    assert Batch(true, "") == "";
  }

  /** The rest of a closing tag without its beginning closes nothing. */
  lemma LateClose(m: nat)
    requires 1 <= m <= |CLOSE|
    ensures Batch(true, CLOSE[m..] + "!") == ""
  {
    var late := CLOSE[m..] + "!";
    TagsAreTagLike();
    FindIsFirst(late, CLOSE, 0);
    CharInTag(late, CLOSE, Find(late, CLOSE), Find(late, CLOSE));
    assert forall i :: 0 <= i < |CLOSE[m..]| ==> late[i] == CLOSE[m + i];
  }

  /** Inside a block likewise: forget part of `k` characters of the closing tag, and the end of the block is missed. */
  lemma HoldbackNeededInside(u: string, k: nat, n: nat)
    requires Find(u, CLOSE) < 0 && 1 <= k <= 7 && EndsWith(u, CLOSE[..k]) && |u| - k < n <= |u|
    ensures Batch(true, u + (CLOSE[k..] + "!")) == "!" && Batch(true, u[n..] + (CLOSE[k..] + "!")) == ""
  {
    assert Batch(true, u + (CLOSE[k..] + "!")) == "!" by {
      TagBegun(u, CLOSE, k);
      HiddenThenText(u[..|u| - k], "!");
      assert Find("!", OPEN) < 0;
    }
    assert Batch(true, u[n..] + (CLOSE[k..] + "!")) == "" by {
      ForgottenTag(u, CLOSE, k, n, "!");
      LateClose(n - (|u| - k));
    }
  }

  lemma ForgottenTag(u: string, tag: string, k: nat, n: nat, more: string)
    requires k <= |tag| && EndsWith(u, tag[..k]) && |u| - k <= n <= |u|
    ensures u[n..] + (tag[k..] + more) == tag[n - (|u| - k)..] + more
  {
    var m := n - (|u| - k);
    assert u[n..] == tag[..k][m..] == tag[m..k];
    assert tag[m..] == tag[m..k] + tag[k..];
  }

  // ---------------------------------------------------------------- When the result spells the tag

  /** The tag begins with the last `k` characters of `a` and ends in `b`. */
  ghost predicate Seam(a: string, b: string, k: nat) {
    1 <= k < |OPEN| && EndsWith(a, OPEN[..k]) && OPEN[k..] <= b
  }

  lemma AtSeam(a: string, b: string, k: nat)
    requires 1 <= k < |OPEN| && k <= |a|
    ensures At(a + b, OPEN, |a| - k) <==> Seam(a, b, k)
  {
    var i := |a| - k;
    if |OPEN| - k <= |b| {
      assert (a + b)[i..i + |OPEN|] == a[i..] + b[..|OPEN| - k];
      assert OPEN == OPEN[..k] + OPEN[k..];
      if a[i..] + b[..|OPEN| - k] == OPEN {
        assert (a[i..] + b[..|OPEN| - k])[..k] == a[i..] && (a[i..] + b[..|OPEN| - k])[k..] == b[..|OPEN| - k];
      }
    }
  }

  ghost predicate HasSeam(a: string, b: string) {
    exists k :: Seam(a, b, k)
  }

  lemma TagInTwoOnly(a: string, b: string, i: nat)
    requires At(a + b, OPEN, i)
    ensures Find(a, OPEN) >= 0 || Find(b, OPEN) >= 0 || HasSeam(a, b)
  {
    if i + |OPEN| <= |a| {
      AtLeft(a, b, OPEN, i);
      FindIsFirst(a, OPEN, i);
    } else if i >= |a| {
      AtRight(a, b, OPEN, i - |a|);
      FindIsFirst(b, OPEN, i - |a|);
    } else {
      AtSeam(a, b, |a| - i);
    }
  }

  lemma TagInSecond(a: string, b: string)
    requires Find(b, OPEN) >= 0
    ensures Find(a + b, OPEN) >= 0
  {
    FindIsFirst(b, OPEN, 0);
    AtRight(a, b, OPEN, Find(b, OPEN));
    FindIsFirst(a + b, OPEN, |a| + Find(b, OPEN));
  }

  lemma TagAtSeam(a: string, b: string, k: nat)
    requires Seam(a, b, k)
    ensures Find(a + b, OPEN) >= 0
  {
    AtSeam(a, b, k);
    FindIsFirst(a + b, OPEN, |a| - k);
  }

  /** Two texts together contain the tag if one of them does, or it spans their seam. */
  lemma TagInTwo(a: string, b: string)
    ensures Find(a + b, OPEN) >= 0 <==> Find(a, OPEN) >= 0 || Find(b, OPEN) >= 0 || HasSeam(a, b)
  {
    if Find(a + b, OPEN) >= 0 {
      FindIsFirst(a + b, OPEN, 0);
      TagInTwoOnly(a, b, Find(a + b, OPEN));
    } else if Find(a, OPEN) >= 0 {
      FindAppend(a, OPEN, b);
    } else if Find(b, OPEN) >= 0 {
      TagInSecond(a, b);
    } else if HasSeam(a, b) {
      var k :| Seam(a, b, k);
      TagAtSeam(a, b, k);
    }
  }

  /** Some visible run before a block ends in the beginning of the tag, and what is shown after it goes on with it. */
  ghost predicate TagAcross(inside: bool, text: string)
    decreases |text|
  {
    if inside then
      var i := Find(text, CLOSE);
      i >= 0 && TagAcross(false, text[i + |CLOSE|..])
    else
      var i := Find(text, OPEN);
      && i >= 0
      && (HasSeam(text[..i], Batch(true, text[i + |OPEN|..])) || TagAcross(true, text[i + |OPEN|..]))
  }

  /** For every text: the result contains the tag exactly when visible runs join to it across a hidden block. */
  lemma {:induction false} ResultHasTagIff(inside: bool, text: string)
    ensures Find(Batch(inside, text), OPEN) >= 0 <==> TagAcross(inside, text)
    decreases |text|
  {
    if inside {
      var i := Find(text, CLOSE);
      if i >= 0 {
        ResultHasTagIff(false, text[i + |CLOSE|..]);
      }
    } else {
      var i := Find(text, OPEN);
      if i >= 0 {
        ResultHasTagIff(true, text[i + |OPEN|..]);
        TagInTwo(text[..i], Batch(true, text[i + |OPEN|..]));
        BeforeFirst(text, OPEN);
      }
    }
  }

  lemma BeforeFirst(text: string, tag: string)
    requires |tag| > 0 && Find(text, tag) >= 0
    ensures Find(text[..Find(text, tag)], tag) < 0
  {
    var i := Find(text, tag);
    assert text[..i] + text[i..] == text;
    if Find(text[..i], tag) >= 0 {
      FindAppend(text[..i], tag, text[i..]);
    }
  }

  /** With one block: the tag appears exactly when the text before the block and the text after it spell it. */
  lemma OneBlockHasTagIff(a: string, x: string, b: string)
    requires Find(a, OPEN) < 0 && Find(b, OPEN) < 0 && Find(x, CLOSE) < 0
    ensures var text := a + (OPEN + (x + (CLOSE + b)));
            Batch(false, text) == a + b && (Find(Batch(false, text), OPEN) >= 0 <==> HasSeam(a, b))
  {
    VisibleThenBlock(a, x + (CLOSE + b));
    HiddenThenText(x, b);
    TagInTwo(a, b);
  }

  /** The result may itself spell the tag, so "no tag in the output" is not what the filter promises. */
  lemma OutputMaySpellTheTag()
    ensures Batch(false, "<th" + (OPEN + ("x" + (CLOSE + "ink>")))) == OPEN
  {
    assert Find("<th", OPEN) < 0 && Find("ink>", OPEN) < 0 && Find("x", CLOSE) < 0;
    OneBlockHasTagIff("<th", "x", "ink>");
    assert "<th" + "ink>" == OPEN;
  }

  /** The tags, letter by letter: a block is hidden with its tags, and only with these. */
  lemma BlockIsHidden(a: string, b: string)
    requires Find(a, "<think>") < 0 && Find(b, "<think>") < 0
    ensures Batch(false, a + ("<think>" + ("secret" + ("</think>" + b)))) == a + b
  {
    assert Find("secret", CLOSE) < 0;
    OneBlockHasTagIff(a, "secret", b);
  }

  // ---------------------------------------------------------------- The generator's scanner

  class TokenScanner {
    var insideThink: bool
    var thinkBuffer: string

    function View(): Held
      reads this
    {
      Held(insideThink, thinkBuffer)
    }

    constructor ()
      ensures View() == Held(false, "")
    {
      insideThink, thinkBuffer := false, "";
    }

    method OnToken(token: string) returns (visibleFragments: seq<string>)
      modifies this
      ensures Scan(visibleFragments, View()) == ScanBuffer(old(insideThink), old(thinkBuffer) + token)
    {
      thinkBuffer := thinkBuffer + token;
      visibleFragments := [];
      ghost var goal := ScanBuffer(insideThink, thinkBuffer);
      while thinkBuffer != ""
        invariant var r := ScanBuffer(insideThink, thinkBuffer); goal == Scan(visibleFragments + r.fragments, r.held)
        decreases |thinkBuffer|
      {
        if insideThink {
          var closeIndex := Find(thinkBuffer, CLOSE);
          if closeIndex < 0 {
            thinkBuffer := thinkBuffer[if |thinkBuffer| > 7 then |thinkBuffer| - 7 else 0..];
            break;
          }
          thinkBuffer := thinkBuffer[closeIndex + |CLOSE|..];
          insideThink := false;
          continue;
        }
        var openIndex := Find(thinkBuffer, OPEN);
        if openIndex >= 0 {
          if openIndex > 0 {
            visibleFragments := visibleFragments + [thinkBuffer[..openIndex]];
          }
          thinkBuffer := thinkBuffer[openIndex + |OPEN|..];
          insideThink := true;
          continue;
        }
        if |thinkBuffer| > 6 {
          visibleFragments := visibleFragments + [thinkBuffer[..|thinkBuffer| - 6]];
          thinkBuffer := thinkBuffer[|thinkBuffer| - 6..];
        }
        break;
      }
    }
  }

  /** The streaming loop of the endpoint shows exactly the batch result of the whole model output. */
  method StreamTokens(tokens: seq<string>) returns (shown: string)
    ensures shown == Batch(false, Concat(tokens))
  {
    var scanner := new TokenScanner();
    shown := "";
    for i := 0 to |tokens|
      invariant (shown, scanner.View()) == Streamed(tokens[..i])
    {
      assert tokens[..i + 1][..i] == tokens[..i];
      if tokens[i] != "" {
        var fragments := scanner.OnToken(tokens[i]);
        shown := shown + Concat(fragments);
      }
    }
    assert tokens[..|tokens|] == tokens;
    StreamEqualsBatch(tokens);
    if !scanner.insideThink {
      shown := shown + scanner.thinkBuffer;
    }
  }
}
