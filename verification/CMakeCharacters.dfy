/** What the lexer's characters and marks are, said outright
    (scripts/sbom/logsquirl_sbom.py, parse_cmake). */
module CMakeCharacters {
  import opened Options
  import opened Texts
  import opened CMakeLexer

  /** A command's name is of letters, digits and low lines, and starts with no digit; spaces and tabs may
      stand between it and its parenthesis. Said by their codes. */
  lemma NameCharacters(c: char)
    ensures IsNameStart(c) <==> 65 <= c as int <= 90 || 97 <= c as int <= 122 || c as int == 95
    ensures IsNameChar(c) <==> IsNameStart(c) || 48 <= c as int <= 57
    ensures IsBlank(c) <==> c as int in {9, 32}
    ensures IsWordChar(c) <==> !IsSpace(c) && c as int !in {34, 35, 40, 41}
  {
  }

  /** A bracket comment starts with as many "=" between two "[" as its level says. */
  lemma BracketMeans(s: string, n: nat)
    ensures BracketLevel(s) == Some(n) <==> "[" + seq(n, _ => '=') + "[" <= s
  {
    var mark: string := "[" + seq(n, _ => '=') + "[";
    if mark <= s {
      forall k | 0 <= k < n ensures s[1..][k] == '=' { assert s[k + 1] == mark[k + 1]; }
      assert s[n + 1] == mark[n + 1] == '[' && s[0] == mark[0];
      var rest := s[n + 1..];
      assert s[1..] == s[1..n + 1] + rest;
      RunEnds(s[1..n + 1], rest, c => c == '=');
    }
    if BracketLevel(s) == Some(n) {
      assert n == RunLength(s[1..], c => c == '=');
      forall k | 0 <= k < |mark| ensures s[k] == mark[k] {
        if 0 < k <= n { assert s[k] == s[1..][k - 1]; }
      }
    }
  }

  /** Lines are counted by their ends. */
  lemma {:induction false} NewlinesMeans(s: string)
    ensures Newlines(s) == |Split(s, '\n')| - 1
  {
    if s != "" { NewlinesMeans(s[1..]); }
  }
}
