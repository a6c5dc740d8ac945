/** The texts that say which versions are affected, put together from the words Qt's advisory page uses,
    and what each of them says (scripts/sbom/logsquirl_vulns.py, parse_affected_versions). */
module VersionWordings {
  import opened Options
  import opened Texts
  import opened VersionRanges

  // ---------- Words ----------

  /** A word of a clause. A version's name is its numbers, as they are written. */
  datatype Term =
    | Filler(word: string)
    | From
    | To
    | Through
    | UpTo
    | UpToAndIncluding
    | Before
    | Name(numbers: seq<string>)

  function TermText(t: Term): string {
    match t
    case Filler(word) => word
    case From => "from"
    case To => "to"
    case Through => "through"
    case UpTo => "up to"
    case UpToAndIncluding => "up to and including"
    case Before => "before"
    case Name(numbers) => Join(numbers, ".")
  }

  predicate IsName(numbers: seq<string>) { numbers != [] && forall n :: n in numbers ==> IsNumber(n) }

  predicate ValidTerm(t: Term) {
    match t
    case Filler(word) => word in {"all", "version", "versions", "of", "qt"}
    case Name(numbers) => IsName(numbers)
    case _ => true
  }

  /** A piece of a text: a word, what stands between words, a remark about platforms, a sentence about
      versions whose status is unknown, or one about versions known to be unaffected. */
  datatype Piece =
    | Gap
    | Comma
    | And
    | Mark(c: char)
    | Word(term: Term)
    | Platforms(names: seq<string>)
    | Unknown(dot: bool, be: bool, forVersions: bool, qt: bool, numbers: seq<string>, stop: bool)
    | KnownUnaffected(plural: bool, numbers: seq<string>, are: bool, stop: bool)

  function If(b: bool, text: string): string { if b then text else "" }

  function PieceText(p: Piece): string {
    match p
    case Gap => " "
    case Comma => ","
    case And => "and"
    case Mark(c) => [c]
    case Word(t) => TermText(t)
    case Platforms(names) => " (" + (Join(names, " ") + " platforms only)")
    case Unknown(dot, be, forVersions, qt, numbers, stop) =>
      If(dot, ".") + (" affected status " + (If(be, "is ") + ("unknown " + (If(forVersions, "for versions ")
      + ("before " + (If(qt, "qt ") + (Join(numbers, ".") + If(stop, "."))))))))
    case KnownUnaffected(plural, numbers, are, stop) =>
      "version" + (If(plural, "s") + (" before " + (Join(numbers, ".")
      + ((if are then " are" else " is") + (" known to be unaffected" + If(stop, "."))))))
  }

  function Text(ps: seq<Piece>): string {
    if ps == [] then "" else PieceText(ps[0]) + Text(ps[1..])
  }

  // ---------- Which texts say what they mean ----------

  /** Of letters, digits, "_" and "-". */
  predicate IsPlatform(name: string) { name != "" && forall c :: c in name ==> IsWordChar(c) || c == '-' }

  predicate IsWordChar(c: char) { 'a' <= c <= 'z' || '0' <= c <= '9' || c == '_' }

  predicate ValidPiece(p: Piece) {
    match p
    case Mark(c) => c == '.' || c == ':'
    case Word(t) => ValidTerm(t)
    case Platforms(names) => names != [] && forall name :: name in names ==> IsPlatform(name)
    case Unknown(_, _, _, _, numbers, _) => IsName(numbers) && 2 <= |numbers| <= 3
    case KnownUnaffected(_, numbers, _, _) => IsName(numbers) && 2 <= |numbers| <= 3
    case _ => true
  }

  predicate StartsWord(p: Piece) { p.And? || p.Word? || p.KnownUnaffected? }

  /** No word can follow it at once. */
  predicate NeedsGap(p: Piece) { StartsWord(p) || p.Platforms? || p.Unknown? }

  predicate StartsDot(p: Piece) { (p.Unknown? && p.dot) || p == Mark('.') }

  /** A full stop after it would be its own. */
  predicate EndsBare(p: Piece) { (p.Unknown? || p.KnownUnaffected?) && !p.stop }

  predicate CanFollow(p: Piece, next: Piece) {
    && (NeedsGap(p) ==> !StartsWord(next))
    && (EndsBare(p) ==> !StartsDot(next))
    && (p.KnownUnaffected? ==> next.Gap? || next.Comma?)
    && (p.Mark? ==> next.Gap?)
  }

  predicate ValidPieces(ps: seq<Piece>) {
    ps != [] ==> ValidPiece(ps[0]) && (|ps| > 1 ==> CanFollow(ps[0], ps[1])) && ValidPieces(ps[1..])
  }

  predicate IsLead(p: Piece) { p.Gap? || p.Mark? }

  /** A whole text: colons and full stops only at its ends, at the last with sentences about versions
      known to be unaffected. */
  predicate ValidText(lead: seq<Piece>, body: seq<Piece>, trail: seq<Piece>) {
    && ValidPieces(lead + body + trail)
    && (forall p :: p in lead ==> IsLead(p))
    && (forall p :: p in body ==> !p.Mark?)
    && (forall p :: p in trail ==> IsLead(p) || p.KnownUnaffected?)
  }

  // ---------- What they say ----------

  /** The words that count, clause by clause: each comma and each "and" starts a new one, a sentence about
      an unknown status stands for all versions before the one it names. */
  function Said(ps: seq<Piece>): (clauses: seq<seq<Term>>)
    ensures clauses != []
  {
    if ps == [] then [[]] else Add(ps[0], Said(ps[1..]))
  }

  function Add(p: Piece, rest: seq<seq<Term>>): (clauses: seq<seq<Term>>)
    requires rest != []
    ensures clauses != []
  {
    match p
    case Comma => [[]] + rest
    case And => [[]] + rest
    case Word(t) => if t.Filler? then rest else [[t] + rest[0]] + rest[1..]
    case Unknown(_, _, _, _, numbers, _) => [[], [Before, Name(numbers)] + rest[0]] + rest[1..]
    case _ => rest
  }

  /** A version as three numbers, the third 0 if there are two. */
  function Value(numbers: seq<string>): Version {
    seq(|numbers|, i requires 0 <= i < |numbers| => Int(numbers[i])) + if |numbers| == 2 then [0] else []
  }

  predicate Includes(t: Term) { t.To? || t.Through? || t.UpTo? || t.UpToAndIncluding? }

  /** The ways to say a range. */
  datatype Wording =
    | Between(from: bool, low: seq<string>, connector: Term, high: seq<string>)
    | BetweenBefore(from: bool, low: seq<string>, high: seq<string>)
    | AllThrough(connector: Term, high: seq<string>)
    | AllBefore(high: seq<string>)
    | Only(version: seq<string>)

  predicate TwoOrThree(numbers: seq<string>) { 2 <= |numbers| <= 3 }

  /** An included bound has three numbers. */
  predicate ValidWording(w: Wording) {
    match w
    case Between(_, low, connector, high) => Includes(connector) && TwoOrThree(low) && |high| == 3
    case BetweenBefore(_, low, high) => TwoOrThree(low) && TwoOrThree(high)
    case AllThrough(connector, high) => Includes(connector) && connector != To && |high| == 3
    case AllBefore(high) => TwoOrThree(high)
    case Only(version) => |version| == 3
  }

  function Wordings(w: Wording): seq<Term> {
    match w
    case Between(from, low, connector, high) => (if from then [From] else []) + [Name(low), connector, Name(high)]
    case BetweenBefore(from, low, high) => (if from then [From] else []) + [Name(low), Before, Name(high)]
    case AllThrough(connector, high) => [connector, Name(high)]
    case AllBefore(high) => [Before, Name(high)]
    case Only(version) => [Name(version)]
  }

  function RangeOf(w: Wording): VersionRange {
    match w
    case Between(_, low, _, high) => VersionRange(Some(Value(low)), Value(high), true)
    case BetweenBefore(_, low, high) => VersionRange(Some(Value(low)), Value(high), false)
    case AllThrough(_, high) => VersionRange(None, Value(high), true)
    case AllBefore(high) => VersionRange(None, Value(high), false)
    case Only(version) => VersionRange(Some(Value(version)), Value(version), true)
  }

  /** The clause says the range, in one of the ways there are. */
  ghost predicate Says(clause: seq<Term>, r: VersionRange) {
    exists w :: ValidWording(w) && Wordings(w) == clause && RangeOf(w) == r
  }

  /** The clauses say these ranges, in their order; a clause without a word that counts says nothing. */
  ghost predicate SayAll(clauses: seq<seq<Term>>, ranges: seq<VersionRange>) {
    if clauses == [] then ranges == []
    else if clauses[0] == [] then SayAll(clauses[1..], ranges)
    else ranges != [] && Says(clauses[0], ranges[0]) && SayAll(clauses[1..], ranges[1..])
  }
}
