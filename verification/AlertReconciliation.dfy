/** Bringing the code scanning alerts in line with the ignore file
    (scripts/sbom/logsquirl_vulns.py: alert_updates, reconcile_alerts). */
module AlertReconciliation {
  import opened Options
  import opened Texts
  import opened FindingMerge
  import opened AlertMessage

  type Day = int

  datatype IgnoreEntry = IgnoreEntry(id: string, component: string, reason: string, expires: Day)

  datatype AlertState = Open | Dismissed | Fixed

  /** An alert as GitHub lists it. Neither the component nor the aliases are fields of it. */
  datatype Alert = Alert(number: nat, message: string, ruleId: Option<string>, state: AlertState,
                         comment: Option<string>)

  datatype Change = Dismiss(comment: string) | Reopen
  datatype Update = Update(number: nat, change: Change)

  const MARKER := "Accepted in scripts/sbom/vuln-ignore.yml: "
  const MAX_COMMENT := 280

  // ---------- The code ----------

  function ActiveEntries(entries: seq<IgnoreEntry>, today: Day): seq<IgnoreEntry> {
    if entries == [] then []
    else (if entries[0].expires >= today then [entries[0]] else []) + ActiveEntries(entries[1..], today)
  }

  function UpperAll(ids: set<string>): set<string> { set n | n in ids :: Upper(n) }

  /** The first entry that covers any of the ids in the component. */
  function MatchingEntry(entries: seq<IgnoreEntry>, ids: set<string>, component: string): Option<IgnoreEntry> {
    if entries == [] then None
    else if Upper(entries[0].id) in UpperAll(ids) && Lower(entries[0].component) == Lower(component) then
      Some(entries[0])
    else MatchingEntry(entries[1..], ids, component)
  }

  function DismissalComment(reason: string): string {
    var comment := MARKER + Join(Words(reason), " ");
    if |comment| <= MAX_COMMENT then comment else StripEnd(comment[..MAX_COMMENT - 1]) + "\U{2026}"
  }

  function CommentText(a: Alert): string { if a.comment.Some? then a.comment.value else "" }

  /** A dismissal of this reconciliation, not of a person. */
  predicate IsOurs(a: Alert) { MARKER <= CommentText(a) }

  function AlertIds(a: Alert, parsed: Parsed): set<string> {
    {if a.ruleId.Some? && a.ruleId.value != "" then a.ruleId.value else parsed.id} + AliasSet(parsed.aliases)
  }

  function EntryFor(a: Alert, active: seq<IgnoreEntry>): Option<IgnoreEntry> {
    var parsed := Parse(a.message);
    if parsed.None? then None else MatchingEntry(active, AlertIds(a, parsed.value), parsed.value.component)
  }

  function ChangeFor(a: Alert, active: seq<IgnoreEntry>): Option<Change> {
    if Parse(a.message).None? then None
    else
      var entry := EntryFor(a, active);
      if entry.Some? && (a.state == Open || (IsOurs(a) && CommentText(a) != DismissalComment(entry.value.reason))) then
        Some(Dismiss(DismissalComment(entry.value.reason)))
      else if entry.None? && a.state == Dismissed && IsOurs(a) then Some(Reopen)
      else None
  }

  function Updates(alerts: seq<Alert>, active: seq<IgnoreEntry>): seq<Update> {
    if alerts == [] then []
    else
      var change := ChangeFor(alerts[0], active);
      (if change.Some? then [Update(alerts[0].number, change.value)] else []) + Updates(alerts[1..], active)
  }

  // ---------- The board ----------

  /** What GitHub makes of a change. Whether reopening clears the comment is left to it. */
  function Changed(a: Alert, change: Change, cleared: bool): Alert {
    match change
    case Dismiss(comment) => a.(state := Dismissed, comment := Some(comment))
    case Reopen => a.(state := Open, comment := if cleared then None else a.comment)
  }

  function Patch(board: seq<Alert>, u: Update, cleared: bool): seq<Alert> {
    seq(|board|, i requires 0 <= i < |board| =>
      if board[i].number == u.number then Changed(board[i], u.change, cleared) else board[i])
  }

  function PatchAll(board: seq<Alert>, updates: seq<Update>, cleared: bool): seq<Alert>
    decreases |updates|
  {
    if updates == [] then board else PatchAll(Patch(board, updates[0], cleared), updates[1..], cleared)
  }

  function Reconcile(board: seq<Alert>, entries: seq<IgnoreEntry>, today: Day, cleared: bool): seq<Alert> {
    PatchAll(board, Updates(board, ActiveEntries(entries, today)), cleared)
  }

  ghost predicate NumbersApart(board: seq<Alert>) {
    forall i, j :: 0 <= i < j < |board| ==> board[i].number != board[j].number
  }

  /** What reconciling makes of one alert, whatever else is on the board. */
  function Settled(a: Alert, active: seq<IgnoreEntry>, cleared: bool): (s: Alert)
    ensures s.number == a.number && s.message == a.message && s.ruleId == a.ruleId
  {
    var change := ChangeFor(a, active);
    if change.None? then a else Changed(a, change.value, cleared)
  }

  function SettleAll(board: seq<Alert>, active: seq<IgnoreEntry>, cleared: bool): seq<Alert> {
    if board == [] then [] else [Settled(board[0], active, cleared)] + SettleAll(board[1..], active, cleared)
  }

  lemma {:induction false} SettleAllAt(board: seq<Alert>, active: seq<IgnoreEntry>, cleared: bool)
    ensures |SettleAll(board, active, cleared)| == |board|
    ensures forall i :: 0 <= i < |board| ==> SettleAll(board, active, cleared)[i] == Settled(board[i], active, cleared)
  {
    hide Settled;
    if board != [] { SettleAllAt(board[1..], active, cleared); }
  }

  // ---------- The marker survives ----------

  lemma {:induction false} StripEndKeeps(s: string, i: nat)
    requires i < |s| && !IsSpace(s[i])
    ensures i < |StripEnd(s)| && StripEnd(s) <= s
    decreases |s|
  {
    if IsSpace(s[|s| - 1]) { StripEndKeeps(s[..|s| - 1], i); }
  }

  /** A dismissal's comment fits, and however it is cut it is still known as our own. */
  lemma CommentKeepsMarker(reason: string)
    ensures MARKER <= DismissalComment(reason)
    ensures |DismissalComment(reason)| <= MAX_COMMENT
  {
    var words := Words(reason);
    var comment := MARKER + Join(words, " ");
    assert |MARKER| == 42;
    if |comment| > MAX_COMMENT {
      assert words != [] && words[0] in words;
      assert Join(words, " ")[0] == words[0][0];
      var cut := comment[..MAX_COMMENT - 1];
      assert cut[42] == comment[42] == words[0][0];
      StripEndKeeps(cut, 42);
      assert StripEnd(cut)[..42] == MARKER;
    }
  }

  // ---------- Convergence ----------

  /** A change reaches the alert it names and no other. */
  lemma PatchOne(done: seq<Alert>, a: Alert, more: seq<Alert>, change: Change, cleared: bool)
    requires NumbersApart(done + [a] + more)
    ensures Patch(done + [a] + more, Update(a.number, change), cleared) == done + [Changed(a, change, cleared)] + more
  {
    var board := done + [a] + more;
    assert board[|done|] == a;
    forall i | 0 <= i < |board| && i != |done| ensures board[i].number != a.number {
      if i < |done| { assert board[i].number != board[|done|].number; }
      else { assert board[|done|].number != board[i].number; }
    }
  }

  lemma SameNumbersApart(board: seq<Alert>, board': seq<Alert>)
    requires NumbersApart(board) && |board'| == |board|
    requires forall i :: 0 <= i < |board| ==> board'[i].number == board[i].number
    ensures NumbersApart(board')
  {
    forall i, j | 0 <= i < j < |board'| ensures board'[i].number != board'[j].number {
      assert board'[i].number == board[i].number && board'[j].number == board[j].number;
    }
  }

  /** One alert's change, if it has one, settles that alert where it stands. */
  lemma OneSettled(done: seq<Alert>, a: Alert, more: seq<Alert>, active: seq<IgnoreEntry>, cleared: bool)
    requires NumbersApart(done + [a] + more)
    ensures var board, change := done + [a] + more, ChangeFor(a, active);
            (if change.Some? then Patch(board, Update(a.number, change.value), cleared) else board)
            == done + [Settled(a, active, cleared)] + more
    ensures NumbersApart(done + [Settled(a, active, cleared)] + more)
  {
    hide ChangeFor, Patch;
    var change := ChangeFor(a, active);
    if change.Some? { PatchOne(done, a, more, change.value, cleared); }
    SameNumbersApart(done + [a] + more, done + [Settled(a, active, cleared)] + more);
  }

  /** Updates made for one board act on each alert by itself. */
  lemma {:induction false} PatchAllSettles(done: seq<Alert>, rest: seq<Alert>, active: seq<IgnoreEntry>, cleared: bool)
    requires NumbersApart(done + rest)
    ensures PatchAll(done + rest, Updates(rest, active), cleared) == done + SettleAll(rest, active, cleared)
    decreases |rest|
  {
    hide ChangeFor, Patch, PatchAll, Updates, Changed, Settled;
    if rest == [] {
      PatchNothing(done, active, cleared);
      assert done + [] == done;
    } else {
      var a, more := rest[0], rest[1..];
      assert done + rest == done + [a] + more;
      OneSettled(done, a, more, active, cleared);
      UpdatesFirst(rest, active);
      PatchAllFirst(done + rest, a.number, ChangeFor(a, active), Updates(more, active), cleared);
      PatchAllSettles(done + [Settled(a, active, cleared)], more, active, cleared);
      SettleFirst(done, rest, active, cleared);
    }
  }

  lemma SettleFirst(done: seq<Alert>, rest: seq<Alert>, active: seq<IgnoreEntry>, cleared: bool)
    requires rest != []
    ensures done + [Settled(rest[0], active, cleared)] + SettleAll(rest[1..], active, cleared)
         == done + SettleAll(rest, active, cleared)
  {
    hide Settled;
  }

  lemma PatchNothing(board: seq<Alert>, active: seq<IgnoreEntry>, cleared: bool)
    ensures PatchAll(board, Updates([], active), cleared) == board
  {
  }

  function AsUpdates(number: nat, change: Option<Change>): seq<Update> {
    if change.Some? then [Update(number, change.value)] else []
  }

  lemma UpdatesFirst(alerts: seq<Alert>, active: seq<IgnoreEntry>)
    requires alerts != []
    ensures Updates(alerts, active)
         == AsUpdates(alerts[0].number, ChangeFor(alerts[0], active)) + Updates(alerts[1..], active)
  {
  }

  lemma PatchAllFirst(board: seq<Alert>, number: nat, change: Option<Change>, more: seq<Update>, cleared: bool)
    ensures PatchAll(board, AsUpdates(number, change) + more, cleared)
         == PatchAll(if change.Some? then Patch(board, Update(number, change.value), cleared) else board, more, cleared)
  {
    hide Patch;
    if change.Some? { assert ([Update(number, change.value)] + more)[1..] == more; }
    else { assert [] + more == more; }
  }

  lemma ReconcileSettles(board: seq<Alert>, entries: seq<IgnoreEntry>, today: Day, cleared: bool)
    requires NumbersApart(board)
    ensures var active, board' := ActiveEntries(entries, today), Reconcile(board, entries, today, cleared);
            board' == SettleAll(board, active, cleared) && NumbersApart(board')
  {
    hide ChangeFor, PatchAll, Updates, Settled, SettleAll, NumbersApart, ActiveEntries;
    var active := ActiveEntries(entries, today);
    assert [] + board == board;
    PatchAllSettles([], board, active, cleared);
    assert [] + SettleAll(board, active, cleared) == SettleAll(board, active, cleared);
    SettleAllAt(board, active, cleared);
    SameNumbersApart(board, SettleAll(board, active, cleared));
  }

  /** A settled alert asks for no further change, and its state is what the ignore file says. */
  lemma SettledStays(a: Alert, active: seq<IgnoreEntry>, cleared: bool)
    ensures ChangeFor(Settled(a, active, cleared), active) == None
    ensures var s, entry := Settled(a, active, cleared), EntryFor(a, active);
            && s.message == a.message && s.ruleId == a.ruleId
            && (entry.Some? ==> s.state != Open)
            && (entry.Some? && a.state == Open ==> s.state == Dismissed && IsOurs(s))
            && (entry.None? && Parse(a.message).Some? ==> !(s.state == Dismissed && IsOurs(s)))
  {
    var s, entry := Settled(a, active, cleared), EntryFor(a, active);
    assert EntryFor(s, active) == entry;
    if entry.Some? { CommentKeepsMarker(entry.value.reason); }
  }

  lemma {:induction false} NoUpdates(alerts: seq<Alert>, active: seq<IgnoreEntry>)
    requires forall a :: a in alerts ==> ChangeFor(a, active) == None
    ensures Updates(alerts, active) == []
  {
    if alerts != [] {
      assert alerts[0] in alerts;
      NoUpdates(alerts[1..], active);
    }
  }

  /** One run is enough: a second on the same entries and day changes nothing. No covered alert
      is open, and no dismissal of ours stands without an entry. */
  lemma ReconciliationConverges(board: seq<Alert>, entries: seq<IgnoreEntry>, today: Day, cleared: bool)
    requires NumbersApart(board)
    ensures var active, board' := ActiveEntries(entries, today), Reconcile(board, entries, today, cleared);
            && Updates(board', active) == []
            && Reconcile(board', entries, today, cleared) == board'
            && (forall a :: a in board' && EntryFor(a, active).Some? ==> a.state != Open)
            && (forall a :: a in board' && EntryFor(a, active).None? && Parse(a.message).Some? ==>
                  !(a.state == Dismissed && IsOurs(a)))
  {
    hide ChangeFor, EntryFor, IsOurs, Parse, Settled;
    var active, board' := ActiveEntries(entries, today), Reconcile(board, entries, today, cleared);
    ReconcileSettles(board, entries, today, cleared);
    SettleAllAt(board, active, cleared);
    forall a | a in board'
      ensures ChangeFor(a, active) == None
      ensures EntryFor(a, active).Some? ==> a.state != Open
      ensures EntryFor(a, active).None? && Parse(a.message).Some? ==> !(a.state == Dismissed && IsOurs(a))
    {
      var i :| 0 <= i < |board'| && board'[i] == a;
      SettledStays(board[i], active, cleared);
      SameEntry(board[i], a, active);
    }
    NoUpdates(board', active);
  }

  lemma SameEntry(a: Alert, b: Alert, active: seq<IgnoreEntry>)
    requires a.message == b.message && a.ruleId == b.ruleId
    ensures EntryFor(a, active) == EntryFor(b, active)
  {
  }

  // ---------- A person's decisions ----------

  datatype Occasion = Occasion(entries: seq<IgnoreEntry>, today: Day, cleared: bool)

  function History(board: seq<Alert>, occasions: seq<Occasion>): seq<Alert>
    decreases |occasions|
  {
    if occasions == [] then board
    else
      var o := occasions[0];
      History(Reconcile(board, o.entries, o.today, o.cleared), occasions[1..])
  }

  /** What a person dismissed stays as they left it, through any days and any ignore files. */
  lemma {:induction false} PersonsDismissalStays(board: seq<Alert>, occasions: seq<Occasion>, i: nat)
    requires NumbersApart(board) && i < |board| && board[i].state == Dismissed && !IsOurs(board[i])
    ensures i < |History(board, occasions)| && History(board, occasions)[i] == board[i]
    decreases |occasions|
  {
    if occasions != [] {
      var o := occasions[0];
      var board' := Reconcile(board, o.entries, o.today, o.cleared);
      ReconcileSettles(board, o.entries, o.today, o.cleared);
      SettleAllAt(board, ActiveEntries(o.entries, o.today), o.cleared);
      assert ChangeFor(board[i], ActiveEntries(o.entries, o.today)) == None;
      PersonsDismissalStays(board', occasions[1..], i);
    }
  }

  // ---------- The scan and the board agree ----------

  /** apply_ignores: whether the scan itself takes the finding for an accepted risk. */
  function Suppressed(f: Finding, entries: seq<IgnoreEntry>, today: Day): bool {
    MatchingEntry(ActiveEntries(entries, today), f.Names(), f.component).Some?
  }

  /** An open alert raised for a readable finding is dismissed by the day's reconciliation
      exactly when the day's scan suppresses the finding. */
  lemma BoardAgreesWithScan(f: Finding, details: string, number: nat, entries: seq<IgnoreEntry>, today: Day,
                            cleared: bool)
    requires Plain(f) && f.component != "" && '\n' !in f.component && f.id != "" && "" !in f.aliases
    ensures var a := Alert(number, Message(f, details), Some(f.id), Open, None);
            Settled(a, ActiveEntries(entries, today), cleared).state
            == if Suppressed(f, entries, today) then Dismissed else Open
  {
    hide Parse, Message, AliasSet;
    ReadsBackIff(f, details);
    var a := Alert(number, Message(f, details), Some(f.id), Open, None);
    var parsed := Parse(a.message).value;
    assert AlertIds(a, parsed) == f.Names();
  }
}
