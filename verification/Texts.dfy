/** Text in the order Python compares it, and small text helpers the scripts share. */
module Texts {

  import opened Options

  /** Code point by code point; a beginning comes before what it begins. */
  predicate TextLeq(a: string, b: string) {
    a == [] || (b != [] && (a[0] < b[0] || (a[0] == b[0] && TextLeq(a[1..], b[1..]))))
  }

  lemma {:induction a} TextLeqReflexive(a: string)
    ensures TextLeq(a, a)
  {
  }

  lemma {:induction false} TextLeqTotal(a: string, b: string)
    ensures TextLeq(a, b) || TextLeq(b, a)
  {
    if a != [] && b != [] && a[0] == b[0] { TextLeqTotal(a[1..], b[1..]); }
  }

  lemma {:induction false} TextLeqAntisymmetric(a: string, b: string)
    requires TextLeq(a, b) && TextLeq(b, a)
    ensures a == b
  {
    if a != [] {
      TextLeqAntisymmetric(a[1..], b[1..]);
      assert a == [a[0]] + a[1..] && b == [b[0]] + b[1..];
    }
  }

  lemma {:induction false} TextLeqTransitive(a: string, b: string, c: string)
    requires TextLeq(a, b) && TextLeq(b, c)
    ensures TextLeq(a, c)
  {
    if a != [] && a[0] == b[0] == c[0] { TextLeqTransitive(a[1..], b[1..], c[1..]); }
  }

  /** str.isspace and the regular expressions' \s, the same characters. */
  predicate IsSpace(c: char) {
    || '\U{0009}' <= c <= '\U{000d}' || '\U{001c}' <= c <= '\U{0020}' || c == '\U{0085}' || c == '\U{00a0}'
    || c == '\U{1680}' || '\U{2000}' <= c <= '\U{200a}' || c == '\U{2028}' || c == '\U{2029}' || c == '\U{202f}'
    || c == '\U{205f}' || c == '\U{3000}'
  }

  /** The length of the longest beginning made of such characters. */
  function RunLength(s: string, p: char -> bool): (n: nat)
    ensures n <= |s|
    ensures forall k :: 0 <= k < n ==> p(s[k])
    ensures n < |s| ==> !p(s[n])
  {
    if s == "" || !p(s[0]) then 0 else 1 + RunLength(s[1..], p)
  }

  /** A run ends where the text changes kind. */
  lemma {:induction false} RunEnds(a: string, b: string, p: char -> bool)
    requires (forall c :: c in a ==> p(c)) && (b == "" || !p(b[0]))
    ensures RunLength(a + b, p) == |a|
  {
    if a == "" { assert a + b == b; } else {
      assert (a + b)[1..] == a[1..] + b;
      RunEnds(a[1..], b, p);
    }
  }

  /** str.find: where the pattern first occurs. */
  function Find(s: string, pat: string): (r: Option<nat>)
    ensures r.Some? ==> r.value + |pat| <= |s|
  {
    if pat <= s then Some(0)
    else if s == "" then None
    else
      var r := Find(s[1..], pat);
      if r.None? then None else Some(r.value + 1)
  }

  /** str.strip. */
  function Strip(s: string): string {
    var t := s[RunLength(s, IsSpace)..];
    StripEnd(t)
  }

  function StripEnd(s: string): string {
    if s != "" && IsSpace(s[|s| - 1]) then StripEnd(s[..|s| - 1]) else s
  }

  function LowerChar(c: char): char {
    if 'A' <= c <= 'Z' then (c as int + 32) as char else c
  }

  function Lower(s: string): string {
    seq(|s|, i requires 0 <= i < |s| => LowerChar(s[i]))
  }

  function Join(parts: seq<string>, sep: string): string {
    if parts == [] then "" else if |parts| == 1 then parts[0] else parts[0] + sep + Join(parts[1..], sep)
  }

  /** Replaces every occurrence of `pat`, from the left and without overlaps. */
  function ReplaceAll(s: string, pat: string, sub: string): string
    requires pat != ""
    decreases |s|
  {
    if s == "" then ""
    else if pat <= s then sub + ReplaceAll(s[|pat|..], pat, sub)
    else [s[0]] + ReplaceAll(s[1..], pat, sub)
  }

  /** str.split with a separator: the parts between its occurrences. */
  function Split(s: string, sep: char): (parts: seq<string>)
    ensures |parts| > 0
  {
    if s == "" then [""]
    else if s[0] == sep then [""] + Split(s[1..], sep)
    else
      var rest := Split(s[1..], sep);
      [[s[0]] + rest[0]] + rest[1..]
  }

  lemma {:induction false} SplitOfJoined(a: string, b: string, sep: char)
    ensures Split(a + [sep] + b, sep) == Split(a, sep) + Split(b, sep)
  {
    var s := a + [sep] + b;
    if a == "" {
      assert s[0] == sep && s[1..] == b;
    } else {
      assert s[1..] == a[1..] + [sep] + b;
      SplitOfJoined(a[1..], b, sep);
    }
  }

  lemma {:induction false} SplitOfOne(s: string, sep: char)
    requires sep !in s
    ensures Split(s, sep) == [s]
  {
    if s != "" {
      SplitOfOne(s[1..], sep);
      assert s[0] in s && s == [s[0]] + s[1..];
    }
  }

  /** Joining the parts gives the text back. */
  lemma {:induction false} SplitRejoins(s: string, sep: char)
    ensures Join(Split(s, sep), [sep]) == s
  {
    if s == "" {
    } else if s[0] == sep {
      var rest := Split(s[1..], sep);
      SplitRejoins(s[1..], sep);
      assert ([""] + rest)[1..] == rest && |[""] + rest| > 1;
      assert s == "" + [sep] + s[1..];
    } else {
      var rest := Split(s[1..], sep);
      SplitRejoins(s[1..], sep);
      JoinAfter(s[0], rest, [sep]);
      assert s == [s[0]] + s[1..];
    }
  }

  /** And splitting what was joined gives the parts back. */
  lemma {:induction false} SplitJoined(parts: seq<string>, sep: char)
    requires parts != [] && forall p :: p in parts ==> sep !in p
    ensures Split(Join(parts, [sep]), sep) == parts
  {
    SplitOfOne(parts[0], sep);
    if |parts| > 1 {
      forall p | p in parts[1..] ensures p in parts {}
      SplitJoined(parts[1..], sep);
      SplitOfJoined(parts[0], Join(parts[1..], [sep]), sep);
      assert parts[0] + [sep] + Join(parts[1..], [sep]) == Join(parts, [sep]);
    } else {
      assert parts == [parts[0]];
    }
  }

  lemma JoinAfter(c: char, parts: seq<string>, sep: string)
    requires parts != []
    ensures Join([[c] + parts[0]] + parts[1..], sep) == [c] + Join(parts, sep)
  {
    var all := [[c] + parts[0]] + parts[1..];
    assert all[1..] == parts[1..];
    if |parts| > 1 {
      var tail := Join(parts[1..], sep);
      assert [c] + parts[0] + sep + tail == [c] + (parts[0] + sep + tail);
    }
  }

  function UpperChar(c: char): char {
    if 'a' <= c <= 'z' then (c as int - 32) as char else c
  }

  function Upper(s: string): string {
    seq(|s|, i requires 0 <= i < |s| => UpperChar(s[i]))
  }

  /** str.split without a separator: the runs of characters that are no whitespace. */
  function Words(s: string): (words: seq<string>)
    ensures forall w :: w in words ==> w != "" && !IsSpace(w[0])
    decreases |s|
  {
    if s == "" then []
    else if IsSpace(s[0]) then Words(s[1..])
    else
      var n := RunLength(s, c => !IsSpace(c));
      assert n > 0;
      [s[..n]] + Words(s[n..])
  }

  predicate NoSpaces(s: string) { forall c :: c in s ==> !IsSpace(c) }

  lemma {:induction false} StripNothing(s: string)
    requires NoSpaces(s)
    ensures Strip(s) == s && Strip(" " + s) == s
  {
    if s != "" {
      assert s[0] in s && s[|s| - 1] in s;
      assert RunLength(s, IsSpace) == 0;
      assert (" " + s)[1..] == s;
      assert RunLength(" " + s, IsSpace) == 1;
    } else {
      assert (" " + s)[1..] == "" && RunLength(" " + s, IsSpace) == 1;
    }
  }

  lemma {:induction false} JoinedCharacter(parts: seq<string>, sep: string, c: char)
    requires c in Join(parts, sep)
    ensures c in sep || exists p :: p in parts && c in p
  {
    if |parts| > 1 && c !in parts[0] && c !in sep { JoinedCharacter(parts[1..], sep, c); }
  }

  /** Words with one space between, and nothing around them. */
  predicate SingleSpaced(s: string) {
    && s != "" && !IsSpace(s[0]) && !IsSpace(s[|s| - 1])
    && forall i :: 0 <= i < |s| - 1 && IsSpace(s[i]) ==> s[i] == ' ' && !IsSpace(s[i + 1])
  }

  /** What follows a space is spaced in the same way. */
  lemma SingleSpacedAfter(s: string, n: nat)
    requires SingleSpaced(s) && n < |s| && IsSpace(s[n])
    ensures n + 1 < |s| && s[n] == ' ' && SingleSpaced(s[n + 1..])
  {
    hide IsSpace;
    var rest := s[n + 1..];
    assert rest[0] == s[n + 1] && rest[|rest| - 1] == s[|s| - 1];
    forall i | 0 <= i < |rest| - 1 && IsSpace(rest[i]) ensures rest[i] == ' ' && !IsSpace(rest[i + 1]) {
      assert rest[i] == s[n + 1 + i] && rest[i + 1] == s[n + 2 + i];
    }
  }

  lemma FirstWord(s: string, n: nat)
    requires 0 < n < |s| && n == RunLength(s, c => !IsSpace(c))
    ensures Words(s) == [s[..n]] + Words(s[n + 1..])
  {
    hide IsSpace;
    assert s[n..][0] == s[n] && s[n..][1..] == s[n + 1..];
  }

  lemma JoinMore(one: string, rest: seq<string>, sep: string)
    requires rest != []
    ensures Join([one] + rest, sep) == one + sep + Join(rest, sep)
  {
    assert ([one] + rest)[1..] == rest;
  }

  /** Splitting into words and joining them changes nothing there. */
  lemma {:induction false} SqueezedAlready(s: string)
    requires SingleSpaced(s)
    ensures Words(s) != [] && Join(Words(s), " ") == s
    decreases |s|
  {
    hide IsSpace, Join, Words, SingleSpaced, RunLength;
    NotEmpty(s);
    var n := RunLength(s, c => !IsSpace(c));
    if n == |s| {
      OneWord(s);
    } else {
      var word, rest := s[..n], s[n + 1..];
      SingleSpacedAfter(s, n);
      SqueezedAlready(rest);
      FirstWord(s, n);
      JoinMore(word, Words(rest), " ");
      assert s == word + " " + rest;
    }
  }

  lemma NotEmpty(s: string)
    requires SingleSpaced(s)
    ensures s != "" && RunLength(s, c => !IsSpace(c)) > 0
  {
    hide IsSpace;
  }

  lemma OneWord(s: string)
    requires s != "" && RunLength(s, c => !IsSpace(c)) == |s|
    ensures Words(s) == [s] && Join([s], " ") == s
  {
    assert s[..|s|] == s && s[|s|..] == "";
  }
}
