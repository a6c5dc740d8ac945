/** What the text helpers mean, said without them. */
module TextMeanings {
  import opened Options
  import opened Texts

  /** The dictionary order: the beginning of the other, or less at the first difference. */
  lemma {:induction false} TextLeqMeans(a: string, b: string)
    ensures TextLeq(a, b) <==>
            a <= b || exists k :: 0 <= k < |a| && k < |b| && a[..k] == b[..k] && a[k] < b[k]
  {
    if a != [] && b != [] {
      if a[0] == b[0] {
        TextLeqMeans(a[1..], b[1..]);
        assert a == [a[0]] + a[1..] && b == [b[0]] + b[1..];
        if k :| 0 <= k < |a[1..]| && k < |b[1..]| && a[1..][..k] == b[1..][..k] && a[1..][k] < b[1..][k] {
          assert a[..k + 1] == [a[0]] + a[1..][..k] && b[..k + 1] == [b[0]] + b[1..][..k];
          assert a[k + 1] < b[k + 1];
        }
        if k :| 0 <= k < |a| && k < |b| && a[..k] == b[..k] && a[k] < b[k] {
          assert k > 0;
          assert a[1..][..k - 1] == a[..k][1..] && b[1..][..k - 1] == b[..k][1..];
          assert a[1..][k - 1] < b[1..][k - 1];
        }
      } else {
        assert a[..0] == b[..0];
        forall k | 0 < k < |a| && k < |b| ensures a[..k] != b[..k] { assert a[..k][0] == a[0] && b[..k][0] == b[0]; }
      }
    }
  }

  /** White space, character by character. */
  lemma SpaceCharacters(c: char)
    ensures IsSpace(c) <==>
            c as int in {9, 10, 11, 12, 13, 28, 29, 30, 31, 32, 0x85, 0xa0, 0x1680, 0x2000, 0x2001, 0x2002, 0x2003,
                         0x2004, 0x2005, 0x2006, 0x2007, 0x2008, 0x2009, 0x200a, 0x2028, 0x2029, 0x202f, 0x205f, 0x3000}
  {
  }

  /** Stripping takes white space off both ends, and all of it. */
  lemma StripMeans(s: string)
    ensures exists a, b :: s == a + Strip(s) + b && (forall c :: c in a + b ==> IsSpace(c))
    ensures Strip(s) != "" ==> !IsSpace(Strip(s)[0]) && !IsSpace(Strip(s)[|Strip(s)| - 1])
  {
    hide IsSpace;
    var n := RunLength(s, IsSpace);
    var a, t := s[..n], s[n..];
    var b := StripEndMeans(t);
    assert s == a + Strip(s) + b;
    forall c | c in a + b ensures IsSpace(c) {
      if c in a { var k :| 0 <= k < n && a[k] == c; assert a[k] == s[k]; }
    }
    if Strip(s) != "" { assert t[0] == Strip(s)[0] && t[0] == s[n]; }
  }

  lemma {:induction false} StripEndMeans(s: string) returns (b: string)
    ensures s == StripEnd(s) + b && forall c :: c in b ==> IsSpace(c)
    ensures StripEnd(s) != "" ==> !IsSpace(StripEnd(s)[|StripEnd(s)| - 1])
  {
    hide IsSpace;
    if s != "" && IsSpace(s[|s| - 1]) {
      var n := |s| - 1;
      var rest := StripEndMeans(s[..n]);
      b := rest + [s[n]];
      assert s == s[..n] + [s[n]];
    } else {
      b := "";
    }
  }

  /** Where the text first occurs, if it does. */
  lemma {:induction false} FindIsFirst(s: string, pat: string)
    ensures Find(s, pat).Some? ==> pat <= s[Find(s, pat).value..]
    ensures forall k :: 0 <= k <= |s| && pat <= s[k..] ==> Find(s, pat).Some? && Find(s, pat).value <= k
  {
    if !(pat <= s) && s != "" {
      FindIsFirst(s[1..], pat);
      forall k | 0 <= k <= |s| && pat <= s[k..] ensures Find(s, pat).Some? && Find(s, pat).value <= k {
        assert k > 0 && s[k..] == s[1..][k - 1..];
      }
      if Find(s, pat).Some? { assert s[Find(s, pat).value..] == s[1..][Find(s, pat).value - 1..]; }
    } else if pat <= s {
      assert s[0..] == s;
    }
  }

  // ---------- Words ----------

  /** Words with a gap before each of them and one at the end. */
  function Spaced(gaps: seq<string>, words: seq<string>): string
    requires |gaps| == |words| + 1
  {
    if words == [] then gaps[0] else gaps[0] + words[0] + Spaced(gaps[1..], words[1..])
  }

  /** White space in the gaps, at least one character of it between two words, and none in words. */
  ghost predicate IsSpacing(gaps: seq<string>, words: seq<string>) {
    && |gaps| == |words| + 1
    && (forall g :: g in gaps ==> forall c :: c in g ==> IsSpace(c))
    && (forall k :: 0 < k < |words| ==> gaps[k] != "")
    && (forall w :: w in words ==> w != "" && NoSpaces(w))
  }

  /** However they are spaced, the words are what a text is split into. */
  lemma {:induction false} WordsOfSpaced(gaps: seq<string>, words: seq<string>)
    requires IsSpacing(gaps, words)
    ensures Words(Spaced(gaps, words)) == words
  {
    hide IsSpace, Words;
    assert gaps[0] in gaps;
    if words == [] {
      WordsAfterGap(gaps[0], "");
      assert gaps[0] + "" == gaps[0];
      NoWords();
    } else {
      var rest := Spaced(gaps[1..], words[1..]);
      RestIsSpaced(gaps, words);
      WordsOfSpaced(gaps[1..], words[1..]);
      WordsAfterGap(gaps[0], words[0] + rest);
      assert gaps[0] + words[0] + rest == gaps[0] + (words[0] + rest);
      assert words[0] in words;
      WordFirst(words[0], rest);
    }
  }

  lemma NoWords()
    ensures Words("") == []
  {
  }

  lemma RestIsSpaced(gaps: seq<string>, words: seq<string>)
    requires IsSpacing(gaps, words) && words != []
    ensures IsSpacing(gaps[1..], words[1..])
    ensures var rest := Spaced(gaps[1..], words[1..]); rest == "" || IsSpace(rest[0])
  {
    hide IsSpace, NoSpaces;
    forall g | g in gaps[1..] ensures g in gaps {}
    forall w | w in words[1..] ensures w in words {}
    assert gaps[1..][0] in gaps;
    if gaps[1] != "" { assert gaps[1][0] in gaps[1]; }
  }

  lemma {:induction false} WordsAfterGap(gap: string, s: string)
    requires forall c :: c in gap ==> IsSpace(c)
    ensures Words(gap + s) == Words(s)
    decreases |gap|
  {
    hide IsSpace;
    if gap == "" { assert gap + s == s; } else {
      assert gap[0] in gap;
      assert (gap + s)[1..] == gap[1..] + s;
      WordsAfterGap(gap[1..], s);
    }
  }

  lemma WordFirst(word: string, rest: string)
    requires word != "" && NoSpaces(word) && (rest == "" || IsSpace(rest[0]))
    ensures Words(word + rest) == [word] + Words(rest)
  {
    hide IsSpace;
    RunEnds(word, rest, c => !IsSpace(c));
    assert word[0] in word;
    assert (word + rest)[..|word|] == word && (word + rest)[|word|..] == rest;
  }

  // ---------- Letter case ----------

  /** One character, but for the case of a letter. */
  predicate SameLetter(a: char, b: char) {
    || a == b
    || ('a' <= a <= 'z' && a as int == b as int + 32)
    || ('a' <= b <= 'z' && b as int == a as int + 32)
  }

  predicate SameUpToCase(a: string, b: string) {
    |a| == |b| && forall i :: 0 <= i < |a| ==> SameLetter(a[i], b[i])
  }

  lemma CaseOfLetters(a: char, b: char)
    ensures LowerChar(a) == LowerChar(b) <==> SameLetter(a, b)
    ensures UpperChar(a) == UpperChar(b) <==> SameLetter(a, b)
  {
  }

  lemma CaseDoesNotMatter(a: string, b: string)
    ensures Lower(a) == Lower(b) <==> SameUpToCase(a, b)
    ensures Upper(a) == Upper(b) <==> SameUpToCase(a, b)
  {
    hide LowerChar, UpperChar, SameLetter;
    forall i, j | 0 <= i < |a| && 0 <= j < |b|
      ensures LowerChar(a[i]) == LowerChar(b[j]) <==> SameLetter(a[i], b[j])
      ensures UpperChar(a[i]) == UpperChar(b[j]) <==> SameLetter(a[i], b[j])
    {
      CaseOfLetters(a[i], b[j]);
    }
    if Lower(a) == Lower(b) {
      assert |a| == |Lower(a)| == |b|;
      forall i | 0 <= i < |a| ensures SameLetter(a[i], b[i]) { assert Lower(a)[i] == Lower(b)[i]; }
    }
    if Upper(a) == Upper(b) {
      assert |a| == |Upper(a)| == |b|;
      forall i | 0 <= i < |a| ensures SameLetter(a[i], b[i]) { assert Upper(a)[i] == Upper(b)[i]; }
    }
  }
}
