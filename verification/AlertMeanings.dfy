/** What the ignore file asks of each alert, said entry by entry
    (scripts/sbom/logsquirl_vulns.py: active_entries, matching_entry, alert_updates, apply_ignores). */
module AlertMeanings {
  import opened Options
  import opened Texts
  import opened TextMeanings
  import opened FindingMerge
  import opened AlertMessage
  import opened AlertReconciliation

  /** An entry is in force through the day it expires, for one of the ids in the component, whatever
      the case of their letters. */
  ghost predicate Covers(e: IgnoreEntry, ids: set<string>, component: string, today: Day) {
    && today <= e.expires && SameUpToCase(e.component, component)
    && exists n :: n in ids && SameUpToCase(e.id, n)
  }

  ghost predicate IsFirst(e: IgnoreEntry, entries: seq<IgnoreEntry>, ids: set<string>, component: string, today: Day) {
    exists k :: 0 <= k < |entries| && entries[k] == e && Covers(entries[k], ids, component, today)
                && forall j :: 0 <= j < k ==> !Covers(entries[j], ids, component, today)
  }

  ghost predicate NoneCovers(entries: seq<IgnoreEntry>, ids: set<string>, component: string, today: Day) {
    forall e :: e in entries ==> !Covers(e, ids, component, today)
  }

  lemma {:induction false} MatchMeans(entries: seq<IgnoreEntry>, ids: set<string>, component: string, today: Day)
    ensures var entry := MatchingEntry(ActiveEntries(entries, today), ids, component);
            if entry.None? then NoneCovers(entries, ids, component, today)
            else IsFirst(entry.value, entries, ids, component, today)
  {
    hide SameUpToCase, Covers;
    if entries != [] {
      var e, rest := entries[0], entries[1..];
      MatchMeans(rest, ids, component, today);
      CoversMeans(e, ids, component, today);
      var entry := MatchingEntry(ActiveEntries(rest, today), ids, component);
      assert ([e] + ActiveEntries(rest, today))[1..] == ActiveEntries(rest, today);
      assert [] + ActiveEntries(rest, today) == ActiveEntries(rest, today);
      assert entries == [e] + rest;
      if !Covers(e, ids, component, today) && entry.Some? {
        var k :| 0 <= k < |rest| && rest[k] == entry.value && Covers(rest[k], ids, component, today)
                 && forall j :: 0 <= j < k ==> !Covers(rest[j], ids, component, today);
        assert entries[k + 1] == rest[k];
        forall j | 0 <= j < k + 1 ensures !Covers(entries[j], ids, component, today) {
          if j > 0 { assert entries[j] == rest[j - 1]; }
        }
      }
    }
  }

  lemma CoversMeans(e: IgnoreEntry, ids: set<string>, component: string, today: Day)
    ensures Covers(e, ids, component, today) <==>
            e.expires >= today && Upper(e.id) in UpperAll(ids) && Lower(e.component) == Lower(component)
  {
    hide SameUpToCase, Upper, Lower;
    CaseDoesNotMatter(e.component, component);
    forall n ensures Upper(e.id) == Upper(n) <==> SameUpToCase(e.id, n) { CaseDoesNotMatter(e.id, n); }
  }

  // ---------- The comment ----------

  /** The marker and the reason's words with one space between, cut to 279 characters without the
      white space at their end, and an ellipsis, if that is more than 280. */
  ghost predicate IsCommentFor(comment: string, reason: string) {
    var text := "Accepted in scripts/sbom/vuln-ignore.yml: " + Join(Words(reason), " ");
    if |text| <= 280 then comment == text
    else exists n :: 0 < n <= 279 && comment == text[..n] + "\U{2026}" && !IsSpace(text[n - 1])
                     && forall i :: n <= i < 279 ==> IsSpace(text[i])
  }

  lemma CommentMeans(reason: string)
    ensures IsCommentFor(DismissalComment(reason), reason)
  {
    hide IsSpace, Words, Join, StripEnd;
    var text := MARKER + Join(Words(reason), " ");
    if |text| > 280 {
      var cut := text[..279];
      var n := |StripEnd(cut)|;
      var b := StripEndMeans(cut);
      MarkerStays(text);
      assert StripEnd(cut) == text[..n];
      assert text[n - 1] == StripEnd(cut)[n - 1];
      forall i | n <= i < 279 ensures IsSpace(text[i]) { assert text[i] == b[i - n] && b[i - n] in b; }
    }
  }

  lemma MarkerStays(text: string)
    requires MARKER <= text && |text| > 280
    ensures StripEnd(text[..279]) != ""
  {
    assert text[0] == 'A';
    StripEndKeeps(text[..279], 0);
  }

  // ---------- One alert ----------

  ghost function KnownIds(a: Alert, p: Parsed): set<string> {
    {if a.ruleId == None || a.ruleId == Some("") then p.id else a.ruleId.value}
    + if p.aliases.None? then {} else set part | part in Split(p.aliases.value, ',') && Strip(part) != "" :: Strip(part)
  }

  ghost predicate DismissedByUs(a: Alert) {
    a.comment.Some? && "Accepted in scripts/sbom/vuln-ignore.yml: " <= a.comment.value
  }

  /** A readable alert is dismissed, with the comment of the first entry that covers it, when it is
      open or we dismissed it with another comment. A dismissal of ours is reopened when no entry covers it.
      Nothing else is asked for. */
  ghost predicate IsChange(change: Option<Change>, a: Alert, entries: seq<IgnoreEntry>, today: Day) {
    var parsed := Parse(a.message);
    if parsed.None? then change == None
    else
      var ids, component := KnownIds(a, parsed.value), parsed.value.component;
      if NoneCovers(entries, ids, component, today) then
        change == if a.state == Dismissed && DismissedByUs(a) then Some(Reopen) else None
      else
        exists e, comment :: IsFirst(e, entries, ids, component, today) && Asked(change, a, e, comment)
  }

  /** A covering entry asks to dismiss an open alert, and to renew a comment of ours. */
  ghost predicate Asked(change: Option<Change>, a: Alert, e: IgnoreEntry, comment: string) {
    && IsCommentFor(comment, e.reason)
    && change == if a.state == Open || (DismissedByUs(a) && a.comment != Some(comment)) then Some(Dismiss(comment))
                 else None
  }

  lemma OursMeans(a: Alert)
    ensures IsOurs(a) <==> DismissedByUs(a)
  {
    assert |MARKER| == 42;
  }

  lemma FirstIsOne(e: IgnoreEntry, entries: seq<IgnoreEntry>, ids: set<string>, component: string, today: Day)
    requires IsFirst(e, entries, ids, component, today)
    ensures !NoneCovers(entries, ids, component, today)
  {
    hide Covers;
    var k :| 0 <= k < |entries| && entries[k] == e && Covers(entries[k], ids, component, today);
    assert entries[k] in entries;
  }

  lemma ChangeMeans(a: Alert, entries: seq<IgnoreEntry>, today: Day)
    ensures IsChange(ChangeFor(a, ActiveEntries(entries, today)), a, entries, today)
  {
    hide Parse, MatchingEntry, ActiveEntries, DismissalComment, IsCommentFor, Split, Strip, IsFirst, NoneCovers, IsOurs;
    var parsed := Parse(a.message);
    if parsed.Some? {
      var ids, component := AlertIds(a, parsed.value), parsed.value.component;
      assert ids == KnownIds(a, parsed.value);
      OursMeans(a);
      MatchMeans(entries, ids, component, today);
      var entry := MatchingEntry(ActiveEntries(entries, today), ids, component);
      if entry.Some? {
        CommentMeans(entry.value.reason);
        FirstIsOne(entry.value, entries, ids, component, today);
        var e, comment := entry.value, DismissalComment(entry.value.reason);
        assert Asked(ChangeFor(a, ActiveEntries(entries, today)), a, e, comment);
      }
    }
  }

  /** What becomes of the alert: a dismissal carries its comment, a reopened alert is open. */
  lemma SettledMeans(a: Alert, entries: seq<IgnoreEntry>, today: Day, cleared: bool)
    ensures exists change :: IsChange(change, a, entries, today)
              && var s := Settled(a, ActiveEntries(entries, today), cleared);
                 && s.number == a.number && s.message == a.message && s.ruleId == a.ruleId
                 && (change == None ==> s == a)
                 && (change == Some(Reopen) ==> s.state == Open && (s.comment == None || s.comment == a.comment))
                 && (change.Some? && change.value.Dismiss? ==>
                       s.state == Dismissed && s.comment == Some(change.value.comment))
  {
    hide ChangeFor, IsChange;
    ChangeMeans(a, entries, today);
  }

  // ---------- All alerts ----------

  /** One update for each alert that needs a change, in the order of the alerts. */
  ghost predicate AreUpdates(updates: seq<Update>, alerts: seq<Alert>, entries: seq<IgnoreEntry>, today: Day) {
    if alerts == [] then updates == []
    else
      || (IsChange(None, alerts[0], entries, today) && AreUpdates(updates, alerts[1..], entries, today))
      || (updates != [] && updates[0].number == alerts[0].number
          && IsChange(Some(updates[0].change), alerts[0], entries, today)
          && AreUpdates(updates[1..], alerts[1..], entries, today))
  }

  lemma {:induction false} UpdatesMean(alerts: seq<Alert>, entries: seq<IgnoreEntry>, today: Day)
    ensures AreUpdates(Updates(alerts, ActiveEntries(entries, today)), alerts, entries, today)
  {
    hide ChangeFor, IsChange;
    if alerts != [] {
      var active := ActiveEntries(entries, today);
      var change, more := ChangeFor(alerts[0], active), Updates(alerts[1..], active);
      ChangeMeans(alerts[0], entries, today);
      UpdatesMean(alerts[1..], entries, today);
      UpdatesFirst(alerts, active);
      if change.Some? { assert (AsUpdates(alerts[0].number, change) + more)[1..] == more; }
      else { assert AsUpdates(alerts[0].number, change) + more == more; }
    }
  }

  /** The loop of alert_updates. */
  method AlertUpdates(alerts: seq<Alert>, entries: seq<IgnoreEntry>, today: Day) returns (updates: seq<Update>)
    ensures updates == Updates(alerts, ActiveEntries(entries, today))
    ensures AreUpdates(updates, alerts, entries, today)
  {
    hide MatchingEntry, AlertIds, Parse, DismissalComment, Updates, ActiveEntries, AreUpdates;
    var active := ActiveEntries(entries, today);
    updates := [];
    for i := 0 to |alerts|
      invariant Updates(alerts, active) == updates + Updates(alerts[i..], active)
    {
      var alert := alerts[i];
      var change := Option.None;
      var parsed := Parse(alert.message);
      if parsed.Some? {
        var entry := MatchingEntry(active, AlertIds(alert, parsed.value), parsed.value.component);
        var comment := CommentText(alert);
        var ours := MARKER <= comment;
        if entry.Some? && (alert.state == Open || (ours && comment != DismissalComment(entry.value.reason))) {
          change := Some(Dismiss(DismissalComment(entry.value.reason)));
        } else if entry.None? && alert.state == Dismissed && ours {
          change := Some(Reopen);
        }
      }
      UpdatesFrom(alerts, i, active);
      if change.Some? { updates := updates + [Update(alert.number, change.value)]; }
    }
    NoMoreUpdates(alerts, active);
    UpdatesMean(alerts, entries, today);
  }

  lemma UpdatesFrom(alerts: seq<Alert>, i: nat, active: seq<IgnoreEntry>)
    requires i < |alerts|
    ensures Updates(alerts[i..], active)
         == AsUpdates(alerts[i].number, ChangeFor(alerts[i], active)) + Updates(alerts[i + 1..], active)
  {
    hide ChangeFor;
    UpdatesFirst(alerts[i..], active);
    assert alerts[i..][1..] == alerts[i + 1..];
  }

  lemma NoMoreUpdates(alerts: seq<Alert>, active: seq<IgnoreEntry>)
    ensures Updates(alerts[|alerts|..], active) == []
  {
  }

  /** The scan takes a finding for an accepted risk exactly when an entry covers it. */
  lemma SuppressedIffCovered(f: Finding, entries: seq<IgnoreEntry>, today: Day)
    ensures Suppressed(f, entries, today) <==>
            exists e :: e in entries && Covers(e, {f.id} + f.aliases, f.component, today)
  {
    hide Covers, MatchingEntry, ActiveEntries, IsFirst;
    MatchMeans(entries, f.Names(), f.component, today);
    var entry := MatchingEntry(ActiveEntries(entries, today), f.Names(), f.component);
    if entry.Some? { FirstIsOne(entry.value, entries, f.Names(), f.component, today); }
  }
}
