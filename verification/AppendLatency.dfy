/** How long an appended Log Line takes to be shown (src/benchmark/src/appendlatency.cpp). */
module AppendLatencies {
  import opened Options
  import opened LatencyQueue

  class AppendLatency {
    /** The Log Lines' numbers are the places. */
    var waiting: seq<Item>
    var latencies: seq<real>
    var lastShown: Option<int>
    ghost var events: seq<Event>

    ghost predicate Valid()
      reads this
    {
      && Run(Empty, events) == State(waiting, latencies)
      && |latencies| <= |Reports(events)|
      && lastShown == if latencies == [] then None else Some(Reports(events)[|latencies| - 1].place)
    }

    constructor ()
      ensures Valid() && events == []
    {
      waiting, latencies, lastShown, events := [], [], None, [];
    }

    method Appended(line: int, moment: int)
      requires Valid()
      modifies this
      ensures Valid() && events == old(events) + [Reported(Item(line, moment))]
      ensures waiting == old(waiting) + [Item(line, moment)] && latencies == old(latencies)
    {
      var e := Reported(Item(line, moment));
      RunExtends(Empty, events, e);
      ReportsMore(events, e);
      waiting := waiting + [Item(line, moment)];
      events := events + [e];
    }

    method Shown(through: int, ended: int) returns (shownFirst: seq<real>)
      requires Valid()
      modifies this
      ensures Valid() && events == old(events) + [Event.Painted(through + 1, ended)]
      ensures latencies == old(latencies) + shownFirst
      ensures |shownFirst| <= |old(waiting)| && waiting == old(waiting)[|shownFirst|..]
      ensures waiting != [] ==> waiting[0].place > through
      // milliseconds from each Log Line the paint shows to the paint's end
      ensures forall i :: 0 <= i < |shownFirst| ==>
                old(waiting)[i].place <= through
                && shownFirst[i] * 1000000.0 == (ended - old(waiting)[i].moment) as real
    {
      hide Run, Reports, Times, Taken, After;
      ghost var was, e := waiting, Event.Painted(through + 1, ended);
      PaintStep(events, e);
      NoneLeft(was, through + 1);
      shownFirst := TakeShown(through, ended);
      latencies := latencies + shownFirst;
      events := events + [e];
    }

    /** The loop: takes from the front of the queue what the paint shows. */
    method TakeShown(through: int, ended: int) returns (shownFirst: seq<real>)
      modifies this`waiting, this`lastShown
      ensures var n := Taken(old(waiting), through + 1);
              && waiting == old(waiting)[n..] && shownFirst == Times(old(waiting)[..n], ended)
              && lastShown == LastOf(old(lastShown), old(waiting), n)
      ensures forall i :: 0 <= i < |shownFirst| ==>
                old(waiting)[i].place <= through
                && shownFirst[i] * 1000000.0 == (ended - old(waiting)[i].moment) as real
    {
      hide Times, Taken;
      ghost var was, n := waiting, Taken(waiting, through + 1);
      shownFirst := [];
      while waiting != [] && waiting[0].place <= through
        invariant |shownFirst| <= n && waiting == was[|shownFirst|..]
        invariant n == |shownFirst| + Taken(waiting, through + 1)
        invariant shownFirst == Times(was[..|shownFirst|], ended)
        invariant lastShown == LastOf(old(lastShown), was, |shownFirst|)
        invariant forall i :: 0 <= i < |shownFirst| ==>
                    was[i].place <= through && shownFirst[i] * 1000000.0 == (ended - was[i].moment) as real
      {
        TakenFirst(waiting, through + 1);
        TimesMore(was, |shownFirst|, ended);
        shownFirst := shownFirst + [MillisecondsBetween(waiting[0].moment, ended)];
        lastShown := Some(waiting[0].place);
        waiting := waiting[1..];
      }
      TakenFirst(waiting, through + 1);
    }

    /** With the Log Lines in order: each timed to the first paint that shows the file through it;
        the last one shown is the last of those. */
    lemma TimedToFirstPaint()
      requires Valid() && InOrder(Reports(events))
      ensures latencies == Answers(events) && waiting == Unanswered(events)
      ensures lastShown.Some? <==> Answers(events) != []
      ensures lastShown.Some? ==> forall x :: x in Unanswered(events) ==> lastShown.value <= x.place
    {
      hide Run, Reports, Answers, Unanswered;
      InOrderIsRight(events);
      FromTheStart(events);
      if latencies != [] { ShownBeforeWaiting(Reports(events), |latencies|); }
    }
  }

  function LastOf(before: Option<int>, items: seq<Item>, n: nat): Option<int>
    requires n <= |items|
  {
    if n == 0 then before else Some(items[n - 1].place)
  }

  /** What a paint leaves, and which of all that was reported it shows last. */
  lemma PaintStep(es: seq<Event>, e: Event)
    requires e.Painted?
    ensures var s := Run(Empty, es); var n := Taken(s.waiting, e.limit);
            && Run(Empty, es + [e]) == State(s.waiting[n..], s.latencies + Times(s.waiting[..n], e.ended))
            && Reports(es + [e]) == Reports(es) && |s.latencies| + n <= |Reports(es)|
            && (n > 0 ==> Reports(es)[|s.latencies| + n - 1] == s.waiting[n - 1])
  {
    hide Run, Reports, Times, Taken;
    RunExtends(Empty, es, e);
    ReportsMore(es, e);
    FromTheStart(es);
  }

  lemma ShownBeforeWaiting(all: seq<Item>, n: nat)
    requires InOrder(all) && 0 < n <= |all|
    ensures forall x :: x in all[n..] ==> all[n - 1].place <= x.place
  {
    forall x | x in all[n..] ensures all[n - 1].place <= x.place {
      var k :| n <= k < |all| && all[k] == x;
    }
  }

  lemma {:induction false} ReportsMore(es: seq<Event>, e: Event)
    ensures Reports(es + [e]) == Reports(es) + (if e.Reported? then [e.item] else [])
  {
    if es == [] { assert es + [e] == [e] && [e][1..] == []; } else {
      assert (es + [e])[1..] == es[1..] + [e];
      ReportsMore(es[1..], e);
    }
  }
}
