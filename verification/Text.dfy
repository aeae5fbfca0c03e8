/** Byte strings and the Go `strings` operations the Git protocol code is built from.

    A Go string or byte slice is a sequence of bytes. Here a byte is the character with that code,
    so that protocol literals can be written as string literals. Nothing relies on codes being
    below 256: every statement about these strings covers the byte strings among them.
 */
module Text {
  type Bytes = string

  datatype Option<+T> = None | Some(value: T)

  predicate HasSuffix(s: Bytes, suffix: Bytes) {
    |suffix| <= |s| && s[|s| - |suffix|..] == suffix
  }

  predicate Contains(s: Bytes, sub: Bytes) {
    sub <= s || (s != "" && Contains(s[1..], sub))
  }

  /** The position of the first `c`, or the length when there is none. */
  function IndexOf(s: Bytes, c: char): (n: nat)
    ensures n <= |s| && c !in s[..n]
    ensures n < |s| ==> s[n] == c
    ensures n < |s| <==> c in s
  {
    if s == "" || s[0] == c then 0 else 1 + IndexOf(s[1..], c)
  }

  function Split(s: Bytes, sep: char): (parts: seq<Bytes>)
    ensures |parts| > 0
    ensures forall i :: 0 <= i < |parts| ==> sep !in parts[i]
    ensures Join(parts, [sep]) == s
  {
    var n := IndexOf(s, sep);
    if n == |s| then [s]
    else
      assert s == s[..n] + [sep] + s[n + 1..];
      [s[..n]] + Split(s[n + 1..], sep)
  }

  function Join(parts: seq<Bytes>, sep: Bytes): Bytes {
    if parts == [] then ""
    else if |parts| == 1 then parts[0]
    else parts[0] + sep + Join(parts[1..], sep)
  }

  /** Splitting undoes joining, whenever no part contains the separator. */
  lemma {:induction false} SplitJoin(parts: seq<Bytes>, sep: char)
    requires |parts| > 0
    requires forall i :: 0 <= i < |parts| ==> sep !in parts[i]
    ensures Split(Join(parts, [sep]), sep) == parts
  {
    var s := Join(parts, [sep]);
    if |parts| > 1 {
      var rest := Join(parts[1..], [sep]);
      assert s == parts[0] + [sep] + rest;
      IndexOfAfter(parts[0], sep, rest);
      assert s[..|parts[0]|] == parts[0] && s[|parts[0]| + 1..] == rest;
      SplitJoin(parts[1..], sep);
    } else {
      assert IndexOf(s, sep) == |s|;
    }
  }

  /** The first separator of `before + [c] + after` ends `before`, when `before` has none. */
  lemma {:induction false} IndexOfAfter(before: Bytes, c: char, after: Bytes)
    requires c !in before
    ensures IndexOf(before + [c] + after, c) == |before|
  {
    var s := before + [c] + after;
    assert s[|before|] == c;
  }

  /** ASCII lower case, which is all `strings.ToLower` does to the ASCII strings it meets here. */
  function ToLower(s: Bytes): (r: Bytes)
    ensures |r| == |s|
    ensures forall i :: 0 <= i < |s| ==> r[i] == LowerChar(s[i])
  {
    seq(|s|, i requires 0 <= i < |s| => LowerChar(s[i]))
  }

  function LowerChar(c: char): char {
    if 'A' <= c <= 'Z' then ((c as int) + 32) as char else c
  }

  // ----- white space, as unicode.IsSpace sees it -----

  /** The number of bytes of the white-space rune at the head of `s`, or 0 when none starts there.
      Lead bytes never occur inside another rune, so a byte-wise match is a rune-wise match. */
  function SpaceLen(s: Bytes): (n: nat)
    ensures n <= |s|
  {
    if s == "" then 0
    else if '\t' <= s[0] <= '\r' || s[0] == ' ' then 1
    else if |s| >= 2 && s[0] == '\U{C2}' && (s[1] == '\U{85}' || s[1] == '\U{A0}') then 2
    else if |s| >= 3 && WideSpace(s[0], s[1], s[2]) then 3
    else 0
  }

  /** U+1680, U+2000 to U+200A, U+2028, U+2029, U+202F, U+205F and U+3000. */
  predicate WideSpace(a: char, b: char, c: char) {
    || (a == '\U{E1}' && b == '\U{9A}' && c == '\U{80}')
    || (a == '\U{E2}' && b == '\U{80}' &&
           ('\U{80}' <= c <= '\U{8A}' || c == '\U{A8}' || c == '\U{A9}' || c == '\U{AF}'))
    || (a == '\U{E2}' && b == '\U{81}' && c == '\U{9F}')
    || (a == '\U{E3}' && b == '\U{80}' && c == '\U{80}')
  }

  /** The number of bytes before the first white-space rune. */
  function WordLen(s: Bytes): (n: nat)
    ensures n <= |s|
  {
    if s == "" || SpaceLen(s) > 0 then 0 else 1 + WordLen(s[1..])
  }

  /** A non-empty run of bytes without white space: what strings.Fields returns. */
  predicate Word(s: Bytes) {
    s != "" && WordLen(s) == |s|
  }

  function Fields(s: Bytes): seq<Bytes>
    decreases |s|
  {
    if s == "" then []
    else if SpaceLen(s) > 0 then Fields(s[SpaceLen(s)..])
    else [s[..WordLen(s)]] + Fields(s[WordLen(s)..])
  }

  lemma {:induction false} FieldsAreWords(s: Bytes, i: nat)
    requires i < |Fields(s)|
    ensures Word(Fields(s)[i])
    decreases |s|
  {
    if SpaceLen(s) > 0 {
      FieldsAreWords(s[SpaceLen(s)..], i);
    } else if i > 0 {
      FieldsAreWords(s[WordLen(s)..], i - 1);
    } else {
      WordPrefix(s, WordLen(s));
    }
  }

  /** Cutting a word short leaves a word: a truncated text contains no new white space. */
  lemma {:induction false} WordPrefix(s: Bytes, n: nat)
    requires n <= WordLen(s)
    ensures WordLen(s[..n]) == n
  {
    if n > 0 {
      WordPrefix(s[1..], n - 1);
      assert s[..n][1..] == s[1..][..n - 1];
    }
  }

  /** A word followed by a space ends at that space. */
  lemma {:induction false} WordThenSpace(word: Bytes, rest: Bytes)
    requires WordLen(word) == |word|
    ensures WordLen(word + " " + rest) == |word|
  {
    var s := word + " " + rest;
    if word != "" {
      WordThenSpace(word[1..], rest);
      assert s[1..] == word[1..] + " " + rest;
    }
  }

  lemma {:induction false} FieldsOfOne(word: Bytes)
    requires Word(word)
    ensures Fields(word) == [word]
  {
    assert word[..|word|] == word && word[|word|..] == "";
  }

  lemma {:induction false} FieldsCons(word: Bytes, rest: Bytes)
    requires Word(word)
    ensures Fields(word + " " + rest) == [word] + Fields(rest)
  {
    var s := word + " " + rest;
    WordThenSpace(word, rest);
    assert s[..|word|] == word;
    var tail := s[|word|..];
    assert tail == " " + rest && tail[1..] == rest;
    assert Fields(tail) == Fields(rest);
  }

  // ----- UTF-8 -----

  predicate Continuation(s: Bytes, i: nat) {
    i < |s| && '\U{80}' <= s[i] <= '\U{BF}'
  }

  /** The length of the well-formed UTF-8 sequence at the head of `s`, or 0. */
  function RuneLen(s: Bytes): (n: nat)
    ensures n <= |s|
  {
    if s == "" then 0
    else if s[0] < '\U{80}' then 1
    else if '\U{C2}' <= s[0] <= '\U{DF}' && Continuation(s, 1) then 2
    else if '\U{E0}' <= s[0] <= '\U{EF}' && Continuation(s, 1) && Continuation(s, 2)
         && (s[0] == '\U{E0}' ==> s[1] >= '\U{A0}') && (s[0] == '\U{ED}' ==> s[1] <= '\U{9F}') then 3
    else if '\U{F0}' <= s[0] <= '\U{F4}' && Continuation(s, 1) && Continuation(s, 2) && Continuation(s, 3)
         && (s[0] == '\U{F0}' ==> s[1] >= '\U{90}') && (s[0] == '\U{F4}' ==> s[1] <= '\U{8F}') then 4
    else 0
  }

  predicate ValidUtf8(s: Bytes) {
    s == "" || (RuneLen(s) > 0 && ValidUtf8(s[RuneLen(s)..]))
  }
}
