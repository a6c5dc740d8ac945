/** Version ranges, how they are written, and how the hand-written texts of Qt's advisory page
    are read (scripts/sbom/logsquirl_vulns.py: VersionRange, parse_affected_versions, affects). */
module VersionRanges {
  import opened Options
  import opened Texts

  // ---------- Ranges ----------

  type Version = seq<nat>

  /** The order of Python's tuples. */
  predicate Less(a: Version, b: Version) {
    b != [] && (a == [] || a[0] < b[0] || (a[0] == b[0] && Less(a[1..], b[1..])))
  }

  predicate AtMost(a: Version, b: Version) { a == b || Less(a, b) }

  datatype VersionRange = VersionRange(low: Option<Version>, high: Version, highIncluded: bool) {
    predicate Contains(v: Version) {
      if low.Some? && Less(v, low.value) then false
      else if highIncluded then AtMost(v, high) else Less(v, high)
    }

    function Str(): string {
      var h := VersionText(high);
      if low == Some(high) && highIncluded then h
      else if low.None? then (if highIncluded then "up to " else "before ") + h
      else VersionText(low.value) + (if highIncluded then " to " else " before ") + h
    }
  }

  function Affects(ranges: seq<VersionRange>, v: Version): bool { exists r :: r in ranges && r.Contains(v) }

  lemma {:induction false} LessTotal(a: Version, b: Version)
    ensures Less(a, b) || a == b || Less(b, a)
  {
    if a != [] && b != [] && a[0] == b[0] {
      LessTotal(a[1..], b[1..]);
      assert a == [a[0]] + a[1..] && b == [b[0]] + b[1..];
    }
  }

  lemma {:induction false} LessAsymmetric(a: Version, b: Version)
    requires Less(a, b)
    ensures !Less(b, a) && a != b
  {
    if a != [] && a[0] == b[0] { LessAsymmetric(a[1..], b[1..]); }
  }

  lemma {:induction false} LessTransitive(a: Version, b: Version, c: Version)
    requires Less(a, b) && Less(b, c)
    ensures Less(a, c)
  {
    if a != [] && a[0] == b[0] && b[0] == c[0] { LessTransitive(a[1..], b[1..], c[1..]); }
  }

  /** Fewer of the same parts, or less at the first part that differs. */
  lemma {:induction false} LessMeans(a: Version, b: Version)
    ensures Less(a, b) <==> a < b || exists k :: 0 <= k < |a| && k < |b| && a[..k] == b[..k] && a[k] < b[k]
  {
    if a != [] && b != [] {
      if a[0] == b[0] {
        LessMeans(a[1..], b[1..]);
        assert a == [a[0]] + a[1..] && b == [b[0]] + b[1..];
        if k :| 0 <= k < |a[1..]| && k < |b[1..]| && a[1..][..k] == b[1..][..k] && a[1..][k] < b[1..][k] {
          assert a[..k + 1] == [a[0]] + a[1..][..k] && b[..k + 1] == [b[0]] + b[1..][..k];
          assert a[k + 1] < b[k + 1];
        }
        if k :| 0 <= k < |a| && k < |b| && a[..k] == b[..k] && a[k] < b[k] {
          assert k > 0;
          assert a[1..][..k - 1] == a[..k][1..] && b[1..][..k - 1] == b[..k][1..];
          assert a[1..][k - 1] < b[1..][k - 1];
        }
      } else {
        assert a[..0] == b[..0];
        forall k | 0 < k < |a| && k < |b| ensures a[..k] != b[..k] { assert a[..k][0] == a[0] && b[..k][0] == b[0]; }
      }
    }
  }

  /** `affects` is membership in the union of the intervals. */
  lemma AffectsIsUnion(ranges: seq<VersionRange>, v: Version)
    ensures Affects(ranges, v) <==>
            exists r :: r in ranges && (r.low.None? || AtMost(r.low.value, v))
                        && (if r.highIncluded then AtMost(v, r.high) else Less(v, r.high))
  {
    forall r | r in ranges && r.low.Some? ensures Less(v, r.low.value) <==> !AtMost(r.low.value, v) {
      LessTotal(v, r.low.value);
      if Less(v, r.low.value) { LessAsymmetric(v, r.low.value); }
    }
  }

  // ---------- Numbers ----------

  predicate IsDigit(c: char) { '0' <= c <= '9' }

  predicate IsNumber(s: string) { s != "" && forall c :: c in s ==> IsDigit(c) }

  function Decimal(n: nat): (s: string)
    ensures IsNumber(s)
  {
    var digit := ('0' as int + n % 10) as char;
    if n < 10 then [digit] else Decimal(n / 10) + [digit]
  }

  function Int(s: string): nat {
    if s == "" then 0
    else Int(s[..|s| - 1]) * 10 + (if IsDigit(s[|s| - 1]) then s[|s| - 1] as int - '0' as int else 0)
  }

  lemma {:induction false} IntOfDecimal(n: nat)
    ensures Int(Decimal(n)) == n
  {
    var s := Decimal(n);
    if n >= 10 {
      IntOfDecimal(n / 10);
      assert s[..|s| - 1] == Decimal(n / 10);
    } else {
      assert s[..0] == "";
    }
  }

  function VersionText(v: Version): string {
    Join(seq(|v|, i requires 0 <= i < |v| => Decimal(v[i])), ".")
  }

  // ---------- Reading: the rewriting steps ----------

  predicate IsWord(c: char) { 'a' <= c <= 'z' || 'A' <= c <= 'Z' || IsDigit(c) || c == '_' }

  /** What follows a text that comes first. */
  function After(s: string, text: string): Option<string> {
    if text <= s then Some(s[|text|..]) else None
  }

  function Optional(s: string, text: string): string { if text <= s then s[|text|..] else s }

  /** \b after a word's character. */
  predicate EndsWord(rest: string) { rest == "" || !IsWord(rest[0]) }

  /** \d+.\d+ and \d+.\d+.\d+ */
  predicate IsV2(s: string) {
    var parts := Split(s, '.');
    2 <= |parts| <= 3 && forall p :: p in parts ==> IsNumber(p)
  }

  predicate IsV(s: string) { |Split(s, '.')| == 3 && IsV2(s) }

  /** How much is matched at the beginning of a text, and what replaces it. */
  datatype Match = NoMatch | Match(length: nat, text: string)

  /** re.sub: from the left, without overlaps. `prev`: the character before the text. */
  function Sub(prev: char, s: string, m: (char, string) -> Match): string
    decreases |s|
  {
    if s == "" then ""
    else
      var r := m(prev, s);
      if r.Match? && 0 < r.length <= |s| then r.text + Sub(s[r.length - 1], s[r.length..], m)
      else [s[0]] + Sub(s[0], s[1..], m)
  }

  const KNOWN := " known to be unaffected"

  /** \bversions? before V2 (?:are|is) known to be unaffected\.? */
  function Unaffected(prev: char, s: string): Match {
    var a := After(s, "version");
    var b := if a.None? || IsWord(prev) then None else After(Optional(a.value, "s"), " before ");
    if b.None? then NoMatch
    else
      var n := RunLength(b.value, c => IsDigit(c) || c == '.');
      var rest := b.value[n..];
      var d := if " are" <= rest then After(rest[4..], KNOWN)
               else if " is" <= rest then After(rest[3..], KNOWN) else None;
      if !IsV2(b.value[..n]) || d.None? then NoMatch else Match(|s| - |Optional(d.value, ".")|, "")
  }

  /** V2 up to a word boundary: three parts when the third ends at one, two otherwise. */
  function V2Length(s: string): (r: Option<nat>)
    ensures r.Some? ==> 0 < r.value <= |s|
  {
    var a := RunLength(s, IsDigit);
    if a == 0 || !("." <= s[a..]) then None
    else
      var b := RunLength(s[a + 1..], IsDigit);
      var rest := s[a + 1 + b..];
      var c := if "." <= rest then RunLength(rest[1..], IsDigit) else 0;
      if b == 0 then None
      else if c > 0 && EndsWord(rest[1 + c..]) then Some(a + 1 + b + 1 + c)
      else if EndsWord(rest) then Some(a + 1 + b)
      else None
  }

  const STATUS := " affected status "

  /** What follows \.? affected status (?:is )?unknown (?:for versions )?before (?:qt )? */
  function StatusName(s: string): Option<string> {
    var a := After(Optional(s, "."), STATUS);
    var b := if a.None? then None else After(Optional(a.value, "is "), "unknown ");
    var c := if b.None? then None else After(Optional(b.value, "for versions "), "before ");
    if c.None? then None else Some(Optional(c.value, "qt "))
  }

  /** That, and V2\b\.? */
  function UnknownStatus(prev: char, s: string): Match {
    var d := StatusName(s);
    var n := if d.None? then None else V2Length(d.value);
    if n.None? then NoMatch
    else Match(|s| - |Optional(d.value[n.value..], ".")|, ", before " + d.value[..n.value])
  }

  /** ' \((?:[\w-]+ )+platforms only\)' */
  function PlatformsOnly(prev: char, s: string): Match {
    var a := After(s, " (");
    if a.None? then NoMatch
    else
      var n := RunLength(a.value, c => c != ')');
      var words := Split(a.value[..n], ' ');
      if n < |a.value| && |words| >= 3 && words[|words| - 2] == "platforms" && words[|words| - 1] == "only"
         && (forall k :: 0 <= k < |words| - 2 ==> words[k] != "" && forall c :: c in words[k] ==> IsWord(c) || c == '-')
      then Match(n + 3, "") else NoMatch
  }

  /** \b(?:all|versions?|of|qt)\b, the whole words. */
  function FillerWord(prev: char, s: string): Match {
    var n := RunLength(s, IsWord);
    if !IsWord(prev) && s[..n] in {"all", "version", "versions", "of", "qt"} then Match(n, " ") else NoMatch
  }

  function Squeeze(s: string): string { Join(Words(s), " ") }

  /** \d and \w, by their codes. */
  lemma ClassesMean(c: char)
    ensures IsDigit(c) <==> 48 <= c as int <= 57
    ensures IsWord(c) <==> 48 <= c as int <= 57 || 65 <= c as int <= 90 || 97 <= c as int <= 122 || c as int == 95
  {
  }

  predicate IsTrimmed(c: char) { c == ' ' || c == ':' || c == '.' }

  function Trim(s: string): string
    decreases |s|
  {
    if s != "" && IsTrimmed(s[0]) then Trim(s[1..])
    else if s != "" && IsTrimmed(s[|s| - 1]) then Trim(s[..|s| - 1])
    else s
  }

  function Normalized(text: string): string {
    var t := Squeeze(Lower(text));
    var t1 := Sub(' ', t, Unaffected);
    var t2 := Sub(' ', t1, UnknownStatus);
    var t3 := Sub(' ', t2, PlatformsOnly);
    var t4 := ReplaceAll(ReplaceAll(t3, "up to and including", "through"), "up to", "through");
    Squeeze(Trim(Sub(' ', t4, FillerWord)))
  }

  // ---------- Reading: the clauses ----------

  /** re.split(",|\band\b"): the text between commas and the word "and". */
  function Clauses(prev: char, s: string, clause: string): seq<string>
    decreases |s|
  {
    if s == "" then [clause]
    else if s[0] == ',' then [clause] + Clauses(',', s[1..], "")
    else if "and" <= s && !IsWord(prev) && EndsWord(s[3..]) then [clause] + Clauses('d', s[3..], "")
    else Clauses(s[0], s[1..], clause + [s[0]])
  }

  /** A version of two or three parts as three numbers. */
  function Numbers(text: string): Version
    requires IsV2(text)
  {
    var parts := Split(text, '.');
    var numbers := seq(|parts|, i requires 0 <= i < |parts| => Int(parts[i]));
    if |parts| == 2 then numbers + [0] else numbers
  }

  /** The five forms a clause can have, each a pattern of words with one space between. */
  function ParseClause(clause: string): Option<VersionRange> {
    var words := Split(clause, ' ');
    var body := if words[0] == "from" then words[1..] else words;
    if |body| == 3 && IsV2(body[0]) && body[1] in {"to", "through"} && IsV(body[2]) then
      Some(VersionRange(Some(Numbers(body[0])), Numbers(body[2]), true))
    else if |body| == 3 && IsV2(body[0]) && body[1] == "before" && IsV2(body[2]) then
      Some(VersionRange(Some(Numbers(body[0])), Numbers(body[2]), false))
    else if |words| == 2 && words[0] == "through" && IsV(words[1]) then
      Some(VersionRange(None, Numbers(words[1]), true))
    else if |words| == 2 && words[0] == "before" && IsV2(words[1]) then
      Some(VersionRange(None, Numbers(words[1]), false))
    else if |words| == 1 && IsV(words[0]) then
      Some(VersionRange(Some(Numbers(words[0])), Numbers(words[0]), true))
    else None
  }

  datatype Parsed = Ranges(ranges: seq<VersionRange>) | CannotRead(clause: string) | NoRange

  function ParseClauses(clauses: seq<string>, ranges: seq<VersionRange>): Parsed
    decreases |clauses|
  {
    if clauses == [] then (if ranges == [] then NoRange else Ranges(ranges))
    else
      var clause := Strip(clauses[0]);
      if clause == "" then ParseClauses(clauses[1..], ranges)
      else
        var range := ParseClause(clause);
        if range.None? then CannotRead(clause) else ParseClauses(clauses[1..], ranges + [range.value])
  }

  function Parse(text: string): Parsed { ParseClauses(Clauses(' ', Normalized(text), ""), []) }

  /** The loop of parse_affected_versions. */
  method ParseAffectedVersions(text: string) returns (r: Parsed)
    ensures r == Parse(text)
  {
    hide ParseClause, Clauses, Normalized, Strip;
    var clauses, ranges: seq<VersionRange> := Clauses(' ', Normalized(text), ""), [];
    for i := 0 to |clauses|
      invariant ParseClauses(clauses[i..], ranges) == ParseClauses(clauses, [])
    {
      assert clauses[i..][1..] == clauses[i + 1..];
      var clause := Strip(clauses[i]);
      if clause != "" {
        var range := ParseClause(clause);
        if range.None? { return CannotRead(clause); }
        ranges := ranges + [range.value];
      }
    }
    return if ranges == [] then NoRange else Ranges(ranges);
  }
}
