/** The Go text operations that the driver's hand-written parsers are built from
    (packages strings and strconv), with the laws that the parsers rest on.
    Text is a sequence of decoded characters. */
module GoStrings {

  datatype Option<+T> = None | Some(value: T)

  datatype Result<+T, +E> = Ok(value: T) | Err(error: E)

  // ---------- prefixes, suffixes and substrings ----------

  predicate HasPrefix(s: string, prefix: string) {
    prefix <= s
  }

  predicate HasSuffix(s: string, suffix: string) {
    |suffix| <= |s| && s[|s| - |suffix|..] == suffix
  }

  /** strings.Contains. */
  predicate Contains(s: string, sub: string) {
    HasPrefix(s, sub) || (s != "" && Contains(s[1..], sub))
  }

  lemma {:induction false} ContainsAfter(pre: string, s: string, sub: string)
    requires Contains(s, sub)
    ensures Contains(pre + s, sub)
  {
    if pre == "" {
      assert pre + s == s;
    } else {
      ContainsAfter(pre[1..], s, sub);
      assert (pre + s)[1..] == pre[1..] + s;
    }
  }

  lemma {:induction false} ContainsBefore(s: string, sub: string, post: string)
    requires Contains(s, sub)
    ensures Contains(s + post, sub)
  {
    if HasPrefix(s, sub) {
      assert HasPrefix(s + post, sub);
    } else {
      ContainsBefore(s[1..], sub, post);
      assert (s + post)[1..] == s[1..] + post;
    }
  }

  /** The usual reading of "substring": some context on either side. */
  lemma ContainsIn(pre: string, sub: string, post: string)
    ensures Contains(pre + sub + post, sub)
  {
    assert HasPrefix(sub, sub);
    ContainsAfter(pre, sub, sub);
    ContainsBefore(pre + sub, sub, post);
  }

  lemma {:induction false} ContainsSplit(s: string, sub: string) returns (pre: string, post: string)
    requires Contains(s, sub)
    ensures s == pre + sub + post
  {
    if HasPrefix(s, sub) {
      pre, post := "", s[|sub|..];
    } else {
      pre, post := ContainsSplit(s[1..], sub);
      pre := [s[0]] + pre;
    }
  }

  lemma ContainsTransitive(s: string, mid: string, sub: string)
    requires Contains(s, mid) && Contains(mid, sub)
    ensures Contains(s, sub)
  {
    var pre, post := ContainsSplit(s, mid);
    ContainsAfter(pre, mid, sub);
    ContainsBefore(pre + mid, sub, post);
  }

  /** A text has every character of the texts it holds. */
  lemma {:induction false} ContainsCharacter(s: string, sub: string, c: char)
    requires Contains(s, sub) && c in sub
    ensures c in s
  {
    if HasPrefix(s, sub) {
      var i :| 0 <= i < |sub| && sub[i] == c;
      assert s[i] == c;
    } else {
      ContainsCharacter(s[1..], sub, c);
    }
  }

  // ---------- white space ----------

  /** unicode.IsSpace. */
  predicate IsSpace(c: char) {
    var n := c as int;
    9 <= n <= 13 || n == 0x20 || n == 0x85 || n == 0xA0 || n == 0x1680 || 0x2000 <= n <= 0x200A
    || n == 0x2028 || n == 0x2029 || n == 0x202F || n == 0x205F || n == 0x3000
  }

  /** The white space among the first 256 characters: tab, newline, vertical tab, form feed, carriage return,
      blank, next line and no-break space. */
  lemma SpaceInLatin1(c: char)
    requires c as int <= 0xFF
    ensures IsSpace(c) <==> c in {'\t', '\n', '\U{0B}', '\U{0C}', '\r', ' ', '\U{85}', '\U{A0}'}
  {
  }

  predicate AllSpace(s: string) {
    forall i :: 0 <= i < |s| ==> IsSpace(s[i])
  }

  predicate NoSpace(s: string) {
    forall i :: 0 <= i < |s| ==> !IsSpace(s[i])
  }

  predicate Trimmed(s: string) {
    s == "" || (!IsSpace(s[0]) && !IsSpace(s[|s| - 1]))
  }

  function TrimLeft(s: string): (r: string)
    ensures |r| <= |s|
    ensures r == "" || !IsSpace(r[0])
  {
    if s != "" && IsSpace(s[0]) then TrimLeft(s[1..]) else s
  }

  function TrimRight(s: string): (r: string)
    ensures r <= s
    ensures r == "" || !IsSpace(r[|r| - 1])
  {
    if s != "" && IsSpace(s[|s| - 1]) then TrimRight(s[..|s| - 1]) else s
  }

  /** strings.TrimSpace. */
  function TrimSpace(s: string): (r: string)
    ensures Trimmed(r)
  {
    TrimRight(TrimLeft(s))
  }

  lemma {:induction false} TrimLeftSkips(pre: string, s: string)
    requires AllSpace(pre)
    ensures TrimLeft(pre + s) == TrimLeft(s)
  {
    if pre == "" {
      assert pre + s == s;
    } else {
      TrimLeftSkips(pre[1..], s);
      assert (pre + s)[1..] == pre[1..] + s && (pre + s)[0] == pre[0];
    }
  }

  lemma {:induction false} TrimRightSkips(s: string, post: string)
    requires AllSpace(post)
    ensures TrimRight(s + post) == TrimRight(s)
  {
    if post == "" {
      assert s + post == s;
    } else {
      var p := post[..|post| - 1];
      TrimRightSkips(s, p);
      assert (s + post)[..|s + post| - 1] == s + p && (s + post)[|s + post| - 1] == post[|post| - 1];
    }
  }

  lemma TrimmedIsTrimSpace(s: string)
    requires Trimmed(s)
    ensures TrimSpace(s) == s
  {
  }

  lemma {:induction false} ContainsTrimLeft(s: string, sub: string)
    ensures Contains(TrimLeft(s), sub) ==> Contains(s, sub)
    ensures sub != "" && !IsSpace(sub[0]) && Contains(s, sub) ==> Contains(TrimLeft(s), sub)
  {
    if s != "" && IsSpace(s[0]) {
      ContainsTrimLeft(s[1..], sub);
      assert sub != "" && HasPrefix(s, sub) ==> s[0] == sub[0];
    }
  }

  lemma {:induction false} ContainsDropLast(s: string, sub: string)
    requires s != "" && sub != "" && s[|s| - 1] != sub[|sub| - 1]
    ensures Contains(s[..|s| - 1], sub) <==> Contains(s, sub)
  {
    var t := s[..|s| - 1];
    assert HasPrefix(s, sub) <==> HasPrefix(t, sub) by {
      assert s == t + [s[|s| - 1]];
    }
    if |s| > 1 {
      ContainsDropLast(s[1..], sub);
      assert t[1..] == s[1..][..|s[1..]| - 1];
    } else {
      assert s[1..] == "";
    }
  }

  lemma {:induction false} ContainsTrimRight(s: string, sub: string)
    requires sub != "" && !IsSpace(sub[|sub| - 1])
    ensures Contains(TrimRight(s), sub) <==> Contains(s, sub)
  {
    if s != "" && IsSpace(s[|s| - 1]) {
      ContainsTrimRight(s[..|s| - 1], sub);
      ContainsDropLast(s, sub);
    }
  }

  /** A text that neither starts nor ends with white space is found in a text exactly when it is
      found in the trimmed text. */
  lemma ContainsTrimSpace(s: string, sub: string)
    requires sub != "" && Trimmed(sub)
    ensures Contains(TrimSpace(s), sub) <==> Contains(s, sub)
  {
    ContainsTrimLeft(s, sub);
    ContainsTrimRight(TrimLeft(s), sub);
  }

  // ---------- Split and Join ----------

  function Prepend(c: char, parts: seq<string>): seq<string>
    requires parts != []
  {
    [[c] + parts[0]] + parts[1..]
  }

  /** strings.Split for a non-empty separator: leftmost, non-overlapping cuts. */
  function Split(s: string, sep: string): (parts: seq<string>)
    requires sep != ""
    ensures |parts| >= 1
  {
    if s == "" then [""]
    else if HasPrefix(s, sep) then [""] + Split(s[|sep|..], sep)
    else Prepend(s[0], Split(s[1..], sep))
  }

  /** strings.Join. */
  function Join(parts: seq<string>, sep: string): string {
    if parts == [] then ""
    else if |parts| == 1 then parts[0]
    else parts[0] + sep + Join(parts[1..], sep)
  }

  lemma JoinCons(head: string, tail: seq<string>, sep: string)
    requires tail != []
    ensures Join([head] + tail, sep) == head + sep + Join(tail, sep)
  {
    assert ([head] + tail)[1..] == tail;
  }

  lemma JoinPrepend(c: char, parts: seq<string>, sep: string)
    requires parts != []
    ensures Join(Prepend(c, parts), sep) == [c] + Join(parts, sep)
  {
    if |parts| > 1 {
      JoinCons([c] + parts[0], parts[1..], sep);
      assert [c] + parts[0] + sep + Join(parts[1..], sep) == [c] + (parts[0] + sep + Join(parts[1..], sep));
    }
  }

  lemma {:induction false} JoinAppend(xs: seq<string>, ys: seq<string>, sep: string)
    requires xs != [] && ys != []
    ensures Join(xs + ys, sep) == Join(xs, sep) + sep + Join(ys, sep)
  {
    if |xs| == 1 {
      JoinCons(xs[0], ys, sep);
      assert xs + ys == [xs[0]] + ys;
    } else {
      JoinAppend(xs[1..], ys, sep);
      assert (xs + ys)[1..] == xs[1..] + ys;
    }
  }

  /** Joining the cut of a text that starts with the separator. */
  lemma JoinSplitAtSep(s: string, sep: string)
    requires sep != "" && HasPrefix(s, sep)
    ensures Join(Split(s, sep), sep) == sep + Join(Split(s[|sep|..], sep), sep)
  {
    var rest := Split(s[|sep|..], sep);
    assert s != "" && Split(s, sep) == [""] + rest;
    EmptyHead(rest, sep);
  }

  lemma EmptyHead(tail: seq<string>, sep: string)
    requires tail != []
    ensures Join([""] + tail, sep) == sep + Join(tail, sep)
  {
    JoinCons("", tail, sep);
    assert "" + sep == sep;
  }

  /** Joining the cut of a text that starts otherwise. */
  lemma JoinSplitAtOther(s: string, sep: string)
    requires sep != "" && s != "" && !HasPrefix(s, sep)
    ensures Join(Split(s, sep), sep) == [s[0]] + Join(Split(s[1..], sep), sep)
  {
    JoinPrepend(s[0], Split(s[1..], sep), sep);
  }

  /** Cutting loses nothing: joining the parts gives the text back. */
  lemma {:induction false} JoinSplit(s: string, sep: string)
    requires sep != ""
    ensures Join(Split(s, sep), sep) == s
  {
    if s == "" {
    } else if HasPrefix(s, sep) {
      JoinSplitAtSep(s, sep);
      JoinSplit(s[|sep|..], sep);
    } else {
      JoinSplitAtOther(s, sep);
      JoinSplit(s[1..], sep);
    }
  }

  /** Unfolding at a one-character separator. */
  lemma SplitStep(h: char, t: string, c: char)
    ensures Split([h] + t, [c]) == SplitCons(h, Split(t, [c]), c)
  {
    assert ([h] + t)[1..] == t && ([h] + t)[0] == h;
    assert HasPrefix([h] + t, [c]) <==> h == c;
  }

  /** One step of the cut of `[h] + t`, as a function of the cut of `t`. */
  function SplitCons(h: char, parts: seq<string>, c: char): seq<string>
    requires parts != []
  {
    if h == c then [""] + parts else Prepend(h, parts)
  }

  lemma SplitConsAppend(h: char, xs: seq<string>, ys: seq<string>, c: char)
    requires xs != []
    ensures SplitCons(h, xs + ys, c) == SplitCons(h, xs, c) + ys
  {
  }

  /** Cutting at a character distributes over texts joined by that character. */
  lemma {:induction false} SplitAppend(a: string, b: string, c: char)
    ensures Split(a + [c] + b, [c]) == Split(a, [c]) + Split(b, [c])
  {
    if a == "" {
      assert a + [c] + b == [c] + b;
      SplitStep(c, b, c);
    } else {
      var t := a[1..];
      var joined := t + [c] + b;
      calc {
        Split(a + [c] + b, [c]);
        { assert a + [c] + b == [a[0]] + joined; }
        Split([a[0]] + joined, [c]);
        { SplitStep(a[0], joined, c); }
        SplitCons(a[0], Split(joined, [c]), c);
        { SplitAppend(t, b, c); }
        SplitCons(a[0], Split(t, [c]) + Split(b, [c]), c);
        { SplitConsAppend(a[0], Split(t, [c]), Split(b, [c]), c); }
        SplitCons(a[0], Split(t, [c]), c) + Split(b, [c]);
        { SplitStep(a[0], t, c); assert a == [a[0]] + t; }
        Split(a, [c]) + Split(b, [c]);
      }
    }
  }

  lemma {:induction false} SplitNone(s: string, c: char)
    requires c !in s
    ensures Split(s, [c]) == [s]
  {
    if s != "" {
      assert s == [s[0]] + s[1..];
      SplitNone(s[1..], c);
      SplitStep(s[0], s[1..], c);
    }
  }

  predicate FreeOf(parts: seq<string>, c: char) {
    forall i :: 0 <= i < |parts| ==> c !in parts[i]
  }

  /** A text has one part more than separators. */
  lemma {:induction false} SplitCount(s: string, c: char)
    ensures |Split(s, [c])| == multiset(s)[c] + 1
  {
    if s != "" {
      assert s == [s[0]] + s[1..];
      SplitCount(s[1..], c);
    }
  }

  lemma {:induction false} SplitFree(s: string, c: char)
    ensures FreeOf(Split(s, [c]), c)
  {
    if s != "" {
      assert s == [s[0]] + s[1..];
      SplitFree(s[1..], c);
      SplitStep(s[0], s[1..], c);
    }
  }

  /** Joining separator-free parts and cutting again gives the parts back. */
  lemma {:induction false} SplitJoin(parts: seq<string>, c: char)
    requires parts != [] && FreeOf(parts, c)
    ensures Split(Join(parts, [c]), [c]) == parts
  {
    SplitNone(parts[0], c);
    if |parts| > 1 {
      SplitJoin(parts[1..], c);
      SplitAppend(parts[0], Join(parts[1..], [c]), c);
      assert parts == [parts[0]] + parts[1..];
    }
  }

  lemma {:induction false} FirstPartIsPrefix(s: string, c: char, sub: string)
    ensures Split(s, [c])[0] <= s
    ensures sub <= s && c !in sub ==> sub <= Split(s, [c])[0]
  {
    if s != "" {
      assert s == [s[0]] + s[1..];
      SplitStep(s[0], s[1..], c);
      if sub != "" && s[0] == sub[0] && sub <= s && c !in sub {
        assert sub == [s[0]] + sub[1..];
        FirstPartIsPrefix(s[1..], c, sub[1..]);
      } else {
        FirstPartIsPrefix(s[1..], c, "");
      }
    }
  }

  /** Every part of a cut is a substring of the text. */
  lemma {:induction false} PartIsSubstring(s: string, c: char, k: nat)
    requires k < |Split(s, [c])|
    ensures Contains(s, Split(s, [c])[k])
  {
    FirstPartIsPrefix(s, c, "");
    if s != "" && k > 0 {
      var t := s[1..];
      assert s == [s[0]] + t;
      SplitStep(s[0], t, c);
      PartIsSubstring(t, c, if s[0] == c then k - 1 else k);
    }
  }

  ghost predicate SomePartContains(parts: seq<string>, sub: string) {
    exists k :: 0 <= k < |parts| && Contains(parts[k], sub)
  }

  lemma {:induction false} ContainsPart(s: string, c: char, sub: string)
    requires c !in sub && Contains(s, sub)
    ensures SomePartContains(Split(s, [c]), sub)
  {
    var parts := Split(s, [c]);
    if HasPrefix(s, sub) {
      FirstPartIsPrefix(s, c, sub);
      assert Contains(parts[0], sub);
    } else {
      var t := s[1..];
      var rest := Split(t, [c]);
      assert s == [s[0]] + t;
      ContainsPart(t, c, sub);
      SplitStep(s[0], t, c);
      var k :| 0 <= k < |rest| && Contains(rest[k], sub);
      if s[0] == c {
        assert Contains(parts[k + 1], sub);
      } else if k == 0 {
        assert parts[0][1..] == rest[0];
        assert Contains(parts[0], sub);
      } else {
        assert Contains(parts[k], sub);
      }
    }
  }

  /** A text without the separating character lies inside a text exactly when it lies inside one
      of the parts of the cut. */
  lemma ContainsSomePart(s: string, c: char, sub: string)
    requires c !in sub
    ensures Contains(s, sub) <==> SomePartContains(Split(s, [c]), sub)
  {
    var parts := Split(s, [c]);
    if Contains(s, sub) { ContainsPart(s, c, sub); }
    forall k | 0 <= k < |parts| && Contains(parts[k], sub)
      ensures Contains(s, sub)
    {
      PartIsSubstring(s, c, k);
      ContainsTransitive(s, parts[k], sub);
    }
  }

  /** Cutting at a phrase whose first occurrence is known. */
  lemma {:induction false} SplitFirst(pre: string, sep: string, post: string)
    requires sep != ""
    requires forall j :: 0 <= j < |pre| ==> !HasPrefix(pre[j..] + sep + post, sep)
    ensures Split(pre + sep + post, sep) == [pre] + Split(post, sep)
  {
    var s := pre + sep + post;
    if pre == "" {
      assert s == sep + post && s[|sep|..] == post;
    } else {
      var tail := pre[1..];
      assert s[1..] == tail + sep + post && pre[0..] == pre;
      forall j | 0 <= j < |tail| ensures !HasPrefix(tail[j..] + sep + post, sep) {
        assert tail[j..] == pre[j + 1..];
      }
      SplitFirst(tail, sep, post);
      assert pre == [s[0]] + tail;
      assert Prepend(s[0], [tail] + Split(post, sep)) == [pre] + Split(post, sep);
    }
  }

  /** A phrase that cannot begin inside another occurrence of itself. */
  predicate NoSelfOverlap(m: string) {
    m != "" && forall k :: 0 < k < |m| ==> m[k..] != m[..|m| - k]
  }

  lemma {:induction false} AbsentFromTail(s: string, m: string, j: nat)
    requires !Contains(s, m) && j <= |s|
    ensures !HasPrefix(s[j..], m)
  {
    if j == 0 {
      assert s[0..] == s;
    } else {
      AbsentFromTail(s[1..], m, j - 1);
      assert s[1..][j - 1..] == s[j..];
    }
  }

  lemma NoEarlierStart(tail: string, m: string, post: string)
    requires NoSelfOverlap(m) && tail != "" && !HasPrefix(tail, m)
    ensures !HasPrefix(tail + m + post, m)
  {
    var s, k := tail + m + post, |tail|;
    if k >= |m| {
      assert s[..|m|] == tail[..|m|];
    } else {
      var p := s[..|m|];
      assert p[k..] == m[..|m| - k] && m[k..] != m[..|m| - k];
      assert p != m;
    }
  }

  /** After a text without such a phrase, the phrase is first found where it was put. */
  lemma SplitAfterAbsent(pre: string, m: string, post: string)
    requires NoSelfOverlap(m) && !Contains(pre, m)
    ensures Split(pre + m + post, m) == [pre] + Split(post, m)
  {
    forall j | 0 <= j < |pre| ensures !HasPrefix(pre[j..] + m + post, m) {
      AbsentFromTail(pre, m, j);
      NoEarlierStart(pre[j..], m, post);
    }
    SplitFirst(pre, m, post);
  }

  lemma {:induction false} AbsentTail(head: string, m: string)
    requires head != "" && !Contains(head, m)
    ensures !Contains(head[1..], m) && !HasPrefix(head, m)
  {
  }

  lemma NoPhraseAtHead(head: string, post: string, m: string)
    requires m != "" && head != "" && !HasPrefix(head, m) && head[|head| - 1] !in m
    ensures !HasPrefix(head + post, m)
  {
    var s := head + post;
    assert s[|head| - 1] == head[|head| - 1];
    if |m| <= |head| { assert s[..|m|] == head[..|m|]; } else { assert m[|head| - 1] in m; }
  }

  lemma FirstPartStep(s: string, m: string)
    requires m != "" && s != "" && !HasPrefix(s, m)
    ensures Split(s, m)[0] == [s[0]] + Split(s[1..], m)[0]
  {
  }

  /** A text without the phrase, ending in a character that the phrase does not use, stays whole in
      the first part, whatever follows it. */
  lemma {:induction false} SplitKeepsHead(head: string, post: string, m: string)
    requires m != "" && head != "" && !Contains(head, m) && head[|head| - 1] !in m
    ensures Split(head + post, m)[0] == head + Split(post, m)[0]
  {
    var tail := head[1..];
    AbsentTail(head, m);
    NoPhraseAtHead(head, post, m);
    FirstPartStep(head + post, m);
    assert (head + post)[1..] == tail + post && head == [head[0]] + tail;
    if tail == "" {
      assert tail + post == post;
    } else {
      SplitKeepsHead(tail, post, m);
      assert [head[0]] + (tail + Split(post, m)[0]) == head + Split(post, m)[0];
    }
  }

  lemma {:induction false} SplitAbsent(s: string, sep: string)
    requires sep != "" && !Contains(s, sep)
    ensures Split(s, sep) == [s]
  {
    if s != "" {
      SplitAbsent(s[1..], sep);
      assert s == [s[0]] + s[1..];
    }
  }

  // ---------- Fields ----------

  function WordLength(s: string): (n: nat)
    ensures n <= |s|
    ensures s != "" && !IsSpace(s[0]) ==> n > 0
  {
    if s == "" || IsSpace(s[0]) then 0 else 1 + WordLength(s[1..])
  }

  /** strings.Fields: the maximal runs of characters that are not white space. */
  function Fields(s: string): seq<string>
    decreases |s|
  {
    var t := TrimLeft(s);
    if t == "" then [] else
      var n := WordLength(t);
      [t[..n]] + Fields(t[n..])
  }

  predicate IsWord(s: string) {
    s != "" && NoSpace(s)
  }

  predicate AllWords(words: seq<string>) {
    forall i :: 0 <= i < |words| ==> IsWord(words[i])
  }

  lemma {:induction false} WordLengthNoSpace(s: string)
    ensures NoSpace(s[..WordLength(s)])
  {
    if s != "" && !IsSpace(s[0]) {
      WordLengthNoSpace(s[1..]);
      assert s[..WordLength(s)] == [s[0]] + s[1..][..WordLength(s[1..])];
    }
  }

  lemma {:induction false} FieldsAreWords(s: string)
    ensures AllWords(Fields(s))
    decreases |s|
  {
    var t := TrimLeft(s);
    if t != "" {
      WordLengthNoSpace(t);
      FieldsAreWords(t[WordLength(t)..]);
    }
  }

  /** Every field is a substring of the text. */
  lemma {:induction false} FieldIsSubstring(s: string, k: nat)
    requires k < |Fields(s)|
    ensures Contains(s, Fields(s)[k])
    decreases |s|
  {
    var t := TrimLeft(s);
    var n := WordLength(t);
    assert t == t[..n] + t[n..];
    if k == 0 {
      assert HasPrefix(t, t[..n]);
    } else {
      FieldIsSubstring(t[n..], k - 1);
      ContainsAfter(t[..n], t[n..], Fields(s)[k]);
    }
    ContainsTrimLeft(s, Fields(s)[k]);
  }

  lemma {:induction false} WordLengthIs(w: string, rest: string)
    requires NoSpace(w) && (rest == "" || IsSpace(rest[0]))
    ensures WordLength(w + rest) == |w|
  {
    if w == "" {
      assert w + rest == rest;
    } else {
      WordLengthIs(w[1..], rest);
      assert (w + rest)[1..] == w[1..] + rest && (w + rest)[0] == w[0];
    }
  }

  lemma FieldsCons(w: string, rest: string)
    requires IsWord(w) && (rest == "" || IsSpace(rest[0]))
    ensures Fields(w + rest) == [w] + Fields(rest)
  {
    WordLengthIs(w, rest);
    assert (w + rest)[0] == w[0] && (w + rest)[..|w|] == w && (w + rest)[|w|..] == rest;
  }

  /** Words printed with single blanks between them are read back as those words. */
  lemma {:induction false} FieldsJoin(words: seq<string>)
    requires AllWords(words)
    ensures Fields(Join(words, " ")) == words
  {
    if |words| == 1 {
      FieldsCons(words[0], "");
      assert words[0] + "" == words[0];
    } else if words != [] {
      var tail := Join(words[1..], " ");
      FieldsCons(words[0], " " + tail);
      assert words[0] + (" " + tail) == words[0] + " " + tail;
      FieldsJoin(words[1..]);
      TrimLeftSkips(" ", tail);
      assert words == [words[0]] + words[1..];
    }
  }

  // ---------- decimal numbers ----------

  const MAX_INT64: int := 0x7FFF_FFFF_FFFF_FFFF
  const MIN_INT64: int := -0x8000_0000_0000_0000

  predicate IsInt64(n: int) {
    MIN_INT64 <= n <= MAX_INT64
  }

  predicate IsDigit(c: char) {
    '0' <= c <= '9'
  }

  predicate AllDigits(s: string) {
    forall i :: 0 <= i < |s| ==> IsDigit(s[i])
  }

  function DigitsValue(s: string): nat
    requires AllDigits(s)
  {
    if s == "" then 0
    else 10 * DigitsValue(s[..|s| - 1]) + (s[|s| - 1] as int - '0' as int)
  }

  /** strconv.Atoi on a 64-bit platform (and strconv.ParseInt with base 10 and 64 bits). */
  function Atoi(s: string): (r: Option<int>)
    ensures r.Some? ==> IsInt64(r.value)
  {
    var signed := s != "" && (s[0] == '-' || s[0] == '+');
    var digits := if signed then s[1..] else s;
    if digits == "" || !AllDigits(digits) then None else
      var m: int := DigitsValue(digits);
      var n := if signed && s[0] == '-' then -m else m;
      if IsInt64(n) then Some(n) else None
  }

  function NatString(n: nat): (s: string)
    ensures s != "" && AllDigits(s)
  {
    var last := [('0' as int + n % 10) as char];
    if n < 10 then last else NatString(n / 10) + last
  }

  function Itoa(n: int): string {
    if n < 0 then "-" + NatString(-n) else NatString(n)
  }

  lemma {:induction false} NatStringValue(n: nat)
    ensures DigitsValue(NatString(n)) == n
  {
    var last := [('0' as int + n % 10) as char];
    if n < 10 {
      assert last[..0] == "";
    } else {
      NatStringValue(n / 10);
      assert NatString(n)[..|NatString(n)| - 1] == NatString(n / 10);
    }
  }

  lemma AtoiItoa(n: int)
    requires IsInt64(n)
    ensures Atoi(Itoa(n)) == Some(n)
  {
    var m := if n < 0 then -n else n;
    NatStringValue(m);
    assert ("-" + NatString(m))[1..] == NatString(m);
    assert IsDigit(NatString(m)[0]);
  }

  /** A plus sign is allowed; digits are needed, and nothing else is allowed. */
  lemma AtoiSigned(n: nat, s: string)
    ensures IsInt64(n) ==> Atoi("+" + NatString(n)) == Some(n)
    ensures Atoi("") == Atoi("+") == Atoi("-") == None
    ensures Atoi(s).Some? ==> exists i :: 0 <= i < |s| && IsDigit(s[i])
    ensures Atoi(s).Some? ==> forall i :: 0 < i < |s| ==> IsDigit(s[i])
  {
    NatStringValue(n);
    assert ("+" + NatString(n))[1..] == NatString(n);
    if Atoi(s).Some? {
      var signed := s[0] == '-' || s[0] == '+';
      var digits := if signed then s[1..] else s;
      assert IsDigit(digits[0]);
      assert forall i :: 0 < i < |s| ==> s[i] == digits[if signed then i - 1 else i];
    }
  }

  /** A number out of range is refused. */
  lemma AtoiOutOfRange(n: int)
    requires !IsInt64(n)
    ensures Atoi(Itoa(n)) == None
  {
    var m := if n < 0 then -n else n;
    NatStringValue(m);
    assert ("-" + NatString(m))[1..] == NatString(m);
    assert IsDigit(NatString(m)[0]);
  }

  lemma ItoaIsWord(n: int)
    ensures IsWord(Itoa(n))
  {
    var d := NatString(if n < 0 then -n else n);
    assert forall i :: 0 <= i < |d| ==> IsDigit(d[i]);
  }
}
