/** The queues of the benchmark library that time how long something takes to reach the screen, and
    what they mean: each is answered by the first later paint that shows it
    (src/benchmark/src/inputlatency.cpp, src/benchmark/src/appendlatency.cpp). */
module LatencyQueue {
  import opened Options

  /** Something that waits for its paint. A paint that reaches past its place shows it: the place of
      an input is its moment, the place of a Log Line its number. Moments are in nanoseconds. */
  datatype Item = Item(place: int, moment: int)

  datatype Event = Reported(item: Item) | Painted(limit: int, ended: int)

  datatype State = State(waiting: seq<Item>, latencies: seq<real>)

  const Empty := State([], [])

  function MillisecondsBetween(from: int, to: int): real { (to - from) as real / 1000000.0 }

  // ---------- The queue ----------

  /** How many at the front of the queue a paint takes. */
  function Taken(waiting: seq<Item>, limit: int): (n: nat)
    ensures n <= |waiting|
  {
    if waiting != [] && waiting[0].place < limit then 1 + Taken(waiting[1..], limit) else 0
  }

  lemma TakenFirst(waiting: seq<Item>, limit: int)
    ensures Taken(waiting, limit)
         == if waiting != [] && waiting[0].place < limit then 1 + Taken(waiting[1..], limit) else 0
  {
  }

  /** What a paint leaves at the front it does not show. */
  lemma {:induction false} NoneLeft(waiting: seq<Item>, limit: int)
    ensures var rest := waiting[Taken(waiting, limit)..]; rest != [] ==> rest[0].place >= limit
  {
    if waiting != [] && waiting[0].place < limit { NoneLeft(waiting[1..], limit); }
  }

  function Times(items: seq<Item>, ended: int): (r: seq<real>)
    ensures |r| == |items|
  {
    seq(|items|, i requires 0 <= i < |items| => MillisecondsBetween(items[i].moment, ended))
  }

  function After(s: State, e: Event): State {
    match e
    case Reported(item) => State(s.waiting + [item], s.latencies)
    case Painted(limit, ended) =>
      var n := Taken(s.waiting, limit);
      State(s.waiting[n..], s.latencies + Times(s.waiting[..n], ended))
  }

  function Run(s: State, es: seq<Event>): State
    decreases es
  {
    if es == [] then s else Run(After(s, es[0]), es[1..])
  }

  lemma {:induction false} RunExtends(s: State, es: seq<Event>, e: Event)
    ensures Run(s, es + [e]) == After(Run(s, es), e)
    decreases es
  {
    hide After;
    if es == [] {
      assert [e][1..] == [] && es + [e] == [e];
    } else {
      assert (es + [e])[1..] == es[1..] + [e];
      RunExtends(After(s, es[0]), es[1..], e);
    }
  }

  // ---------- What it means ----------

  predicate Shows(e: Event, item: Item) { e.Painted? && item.place < e.limit }

  /** The first paint that shows it. */
  function FirstPaint(item: Item, es: seq<Event>): (r: Option<nat>)
    ensures r.Some? ==> r.value < |es| && es[r.value].Painted?
  {
    if es == [] then None
    else if Shows(es[0], item) then Some(0)
    else
      var r := FirstPaint(item, es[1..]);
      if r.None? then None else Some(r.value + 1)
  }

  lemma {:induction false} FirstPaintIsFirst(item: Item, es: seq<Event>)
    ensures var r := FirstPaint(item, es);
            && (r.Some? ==> Shows(es[r.value], item))
            && forall k :: 0 <= k < |es| && (r.None? || k < r.value) ==> !Shows(es[k], item)
  {
    if es != [] && !Shows(es[0], item) {
      FirstPaintIsFirst(item, es[1..]);
      var r := FirstPaint(item, es);
      forall k | 0 <= k < |es| && (r.None? || k < r.value) ensures !Shows(es[k], item) {
        if k > 0 { assert es[1..][k - 1] == es[k]; }
      }
    }
  }

  /** The latencies of what was reported, in that order, each to its own first paint. */
  function Answers(es: seq<Event>): seq<real> {
    if es == [] then []
    else if es[0].Painted? then Answers(es[1..])
    else
      var paint := FirstPaint(es[0].item, es[1..]);
      if paint.None? then Answers(es[1..])
      else [MillisecondsBetween(es[0].item.moment, es[1..][paint.value].ended)] + Answers(es[1..])
  }

  /** What no later paint shows. */
  function Unanswered(es: seq<Event>): seq<Item> {
    if es == [] then []
    else if es[0].Reported? && FirstPaint(es[0].item, es[1..]).None? then [es[0].item] + Unanswered(es[1..])
    else Unanswered(es[1..])
  }

  function Reports(es: seq<Event>): seq<Item> {
    if es == [] then []
    else if es[0].Reported? then [es[0].item] + Reports(es[1..])
    else Reports(es[1..])
  }

  predicate InOrder(items: seq<Item>) { forall i, j :: 0 <= i < j < |items| ==> items[i].place <= items[j].place }

  function Queued(items: seq<Item>): seq<Event> {
    if items == [] then [] else [Reported(items[0])] + Queued(items[1..])
  }

  // ---------- Over whole runs ----------

  /** Whatever the order: each is answered at most once, the oldest first, and what is not answered
      still waits. */
  predicate Keeps(all: seq<Item>, before: seq<real>, t: State) {
    var n := |t.latencies| - |before|;
    before <= t.latencies && n <= |all| && t.waiting == all[n..]
  }

  lemma DropFront(a: seq<Item>, b: seq<Item>, n: nat)
    requires n <= |a|
    ensures a[n..] + b == (a + b)[n..]
  {
  }

  lemma KeepsMore(all: seq<Item>, n: nat, before: seq<real>, times: seq<real>, t: State)
    requires n <= |all| && |times| == n && Keeps(all[n..], before + times, t)
    ensures Keeps(all, before, t)
  {
    var m := |t.latencies| - |before + times|;
    assert all[n..][m..] == all[n + m..];
    assert t.latencies[..|before|] == (before + times)[..|before|] == before;
  }

  lemma {:induction false} NothingLost(s: State, es: seq<Event>)
    ensures Keeps(s.waiting + Reports(es), s.latencies, Run(s, es))
    decreases es
  {
    if es == [] {
      assert s.waiting + [] == s.waiting;
    } else {
      hide Keeps, Times, Taken;
      var e, later := es[0], Reports(es[1..]);
      NothingLost(After(s, e), es[1..]);
      if e.Reported? {
        assert s.waiting + [e.item] + later == s.waiting + ([e.item] + later);
      } else {
        var n := Taken(s.waiting, e.limit);
        DropFront(s.waiting, later, n);
        KeepsMore(s.waiting + later, n, s.latencies, Times(s.waiting[..n], e.ended), Run(s, es));
      }
    }
  }

  lemma FromTheStart(es: seq<Event>)
    ensures var t, all := Run(Empty, es), Reports(es);
            |t.latencies| <= |all| && t.waiting == all[|t.latencies|..]
  {
    NothingLost(Empty, es);
    assert [] + Reports(es) == Reports(es);
  }

  lemma TimesMore(items: seq<Item>, n: nat, ended: int)
    requires n < |items|
    ensures Times(items[..n], ended) + [MillisecondsBetween(items[n].moment, ended)] == Times(items[..n + 1], ended)
  {
  }

  lemma FirstPaintLater(item: Item, e: Event, es: seq<Event>)
    requires !Shows(e, item)
    ensures FirstPaint(item, [e] + es) ==
            if FirstPaint(item, es).None? then None else Some(1 + FirstPaint(item, es).value)
  {
    hide Shows, FirstPaint;
    var all := [e] + es;
    assert all[0] == e && all[1..] == es;
    FirstPaintSkips(item, all);
  }

  lemma FirstPaintSkips(item: Item, es: seq<Event>)
    requires es != [] && !Shows(es[0], item)
    ensures FirstPaint(item, es) ==
            if FirstPaint(item, es[1..]).None? then None else Some(1 + FirstPaint(item, es[1..]).value)
  {
  }

  lemma QueuedFirst(items: seq<Item>, es: seq<Event>)
    ensures Queued(items) + es == if items == [] then es else [Reported(items[0])] + (Queued(items[1..]) + es)
  {
  }

  lemma {:induction false} QueuedSkipped(item: Item, items: seq<Item>, es: seq<Event>)
    ensures FirstPaint(item, Queued(items) + es) ==
            if FirstPaint(item, es).None? then None else Some(|items| + FirstPaint(item, es).value)
    ensures |Queued(items)| == |items|
  {
    hide FirstPaint;
    QueuedFirst(items, es);
    if items != [] {
      QueuedSkipped(item, items[1..], es);
      FirstPaintLater(item, Reported(items[0]), Queued(items[1..]) + es);
    }
  }

  function Latency(item: Item, es: seq<Event>): seq<real> {
    var paint := FirstPaint(item, es);
    if paint.None? then [] else [MillisecondsBetween(item.moment, es[paint.value].ended)]
  }

  lemma FirstReported(item: Item, es: seq<Event>)
    ensures Answers([Reported(item)] + es) == Latency(item, es) + Answers(es)
    ensures Unanswered([Reported(item)] + es) == (if Latency(item, es) == [] then [item] else []) + Unanswered(es)
  {
    hide FirstPaint;
    assert ([Reported(item)] + es)[1..] == es;
  }

  lemma FirstPainted(paint: Event, item: Item, es: seq<Event>)
    requires paint.Painted?
    ensures Answers([paint] + es) == Answers(es) && Unanswered([paint] + es) == Unanswered(es)
    ensures Latency(item, [paint] + es) ==
            if Shows(paint, item) then [MillisecondsBetween(item.moment, paint.ended)] else Latency(item, es)
  {
    assert ([paint] + es)[1..] == es;
  }

  /** What waits in front answers, or goes on waiting, as if it were reported just now. */
  lemma FrontAnswers(items: seq<Item>, es: seq<Event>)
    requires items != []
    ensures Answers(Queued(items) + es) == Latency(items[0], es) + Answers(Queued(items[1..]) + es)
    ensures Unanswered(Queued(items) + es)
         == (if Latency(items[0], es) == [] then [items[0]] else []) + Unanswered(Queued(items[1..]) + es)
  {
    hide FirstPaint, Answers, Unanswered, Latency, Queued;
    var rest := Queued(items[1..]) + es;
    QueuedFirst(items, es);
    SameLatency(items[0], items[1..], es);
    FirstReported(items[0], rest);
  }

  lemma SameLatency(item: Item, items: seq<Item>, es: seq<Event>)
    ensures Latency(item, Queued(items) + es) == Latency(item, es)
  {
    hide FirstPaint, Queued;
    QueuedSkipped(item, items, es);
  }

  lemma TimesFirst(items: seq<Item>, n: nat, ended: int)
    requires 0 < n <= |items|
    ensures Times(items[..n], ended)
         == [MillisecondsBetween(items[0].moment, ended)] + Times(items[1..][..n - 1], ended)
    ensures items[1..][n - 1..] == items[n..]
  {
  }

  lemma {:induction false} PaintTakesFront(items: seq<Item>, paint: Event, es: seq<Event>)
    requires InOrder(items) && paint.Painted?
    ensures var n := Taken(items, paint.limit);
            && Answers(Queued(items) + ([paint] + es))
               == Times(items[..n], paint.ended) + Answers(Queued(items[n..]) + es)
            && Unanswered(Queued(items) + ([paint] + es)) == Unanswered(Queued(items[n..]) + es)
  {
    hide FirstPaint, Answers, Unanswered, Latency, Times, Taken, Queued;
    var later := [paint] + es;
    TakenFirst(items, paint.limit);
    if items == [] {
      QueuedFirst(items, later);
      QueuedFirst(items, es);
      FirstPainted(paint, Item(0, 0), es);
      NoTimes(paint.ended);
    } else {
      var n, tail := Taken(items, paint.limit), items[1..];
      PaintTakesFront(tail, paint, es);
      FrontAnswers(items, later);
      FirstPainted(paint, items[0], es);
      if n > 0 {
        TimesFirst(items, n, paint.ended);
        Reassociated([MillisecondsBetween(items[0].moment, paint.ended)], Times(tail[..n - 1], paint.ended),
                     Answers(Queued(items[n..]) + es));
      } else {
        TakenFirst(tail, paint.limit);
        assert tail != [] ==> items[0].place <= items[1].place;
        FrontAnswers(items, es);
        NoTimes(paint.ended);
        assert items[n..] == items && tail[0..] == tail && items[..0] == [] && tail[..0] == [];
      }
    }
  }

  lemma NoTimes(ended: int)
    ensures Times([], ended) == []
  {
  }

  lemma Reassociated<T>(a: seq<T>, b: seq<T>, c: seq<T>)
    ensures a + b + c == a + (b + c)
  {
  }

  /** Where a state gets to if all that waits, and all to come, is answered by its first paint. */
  function Meaning(s: State, es: seq<Event>): State {
    State(Unanswered(Queued(s.waiting) + es), s.latencies + Answers(Queued(s.waiting) + es))
  }

  lemma StepMeans(s: State, e: Event, es: seq<Event>)
    requires InOrder(s.waiting)
    ensures Meaning(s, [e] + es) == Meaning(After(s, e), es)
  {
    hide Answers, Unanswered, Queued, Times, Taken, InOrder;
    if e.Reported? {
      QueuedMore(s.waiting, e.item);
      assert Queued(s.waiting) + [e] + es == Queued(s.waiting) + ([e] + es);
    } else {
      PaintTakesFront(s.waiting, e, es);
    }
  }

  lemma PartInOrder(all: seq<Item>, lo: nat, hi: nat)
    requires InOrder(all) && lo <= hi <= |all|
    ensures InOrder(all[lo..hi])
  {
  }

  lemma FirstReport(e: Event, es: seq<Event>)
    ensures Reports([e] + es) == (if e.Reported? then [e.item] + Reports(es) else Reports(es))
  {
    assert ([e] + es)[1..] == es;
  }

  lemma StepKeepsOrder(s: State, e: Event, es: seq<Event>)
    requires InOrder(s.waiting + Reports([e] + es))
    ensures InOrder(s.waiting) && InOrder(After(s, e).waiting + Reports(es))
  {
    hide InOrder, Reports, Taken, Times;
    var later := Reports(es);
    FirstReport(e, es);
    var all := s.waiting + Reports([e] + es);
    PartInOrder(all, 0, |s.waiting|);
    assert s.waiting == all[0..|s.waiting|];
    if e.Reported? {
      assert s.waiting + [e.item] + later == s.waiting + ([e.item] + later);
    } else {
      var n := Taken(s.waiting, e.limit);
      PartInOrder(all, n, |all|);
      DropFront(s.waiting, later, n);
      assert all[n..|all|] == all[n..];
    }
  }

  /** Reported in order, the queue finds the first paint of each. */
  lemma {:induction false} RunMeans(s: State, es: seq<Event>)
    requires InOrder(s.waiting + Reports(es))
    ensures Run(s, es) == Meaning(s, es)
    decreases es
  {
    hide After, Reports, InOrder, Answers, Unanswered;
    if es == [] {
      NothingAnswered(s.waiting);
      assert Queued(s.waiting) + es == Queued(s.waiting);
    } else {
      assert es == [es[0]] + es[1..];
      StepKeepsOrder(s, es[0], es[1..]);
      StepMeans(s, es[0], es[1..]);
      RunMeans(After(s, es[0]), es[1..]);
    }
  }

  lemma {:induction false} NothingAnswered(items: seq<Item>)
    ensures Answers(Queued(items)) == [] && Unanswered(Queued(items)) == items
  {
    if items != [] {
      NothingAnswered(items[1..]);
      FrontAnswers(items, []);
      assert Queued(items[1..]) + [] == Queued(items[1..]) && Queued(items) + [] == Queued(items);
    }
  }

  lemma {:induction false} QueuedMore(items: seq<Item>, item: Item)
    ensures Queued(items + [item]) == Queued(items) + [Reported(item)]
    ensures Reports(Queued(items)) == items
  {
    if items != [] {
      assert (items + [item])[1..] == items[1..] + [item];
      QueuedMore(items[1..], item);
      assert Queued(items)[1..] == Queued(items[1..]);
    } else {
      assert items + [item] == [item] && [item][1..] == [];
    }
  }

  /** From the start the queue says exactly what it should. */
  predicate Right(es: seq<Event>) { Run(Empty, es) == State(Unanswered(es), Answers(es)) }

  lemma InOrderIsRight(es: seq<Event>)
    requires InOrder(Reports(es))
    ensures Right(es)
  {
    assert Empty.waiting + Reports(es) == Reports(es) && Queued([]) + es == es;
    RunMeans(Empty, es);
  }

  lemma QueueLeaves(items: seq<Item>, paint: Event)
    requires paint.Painted?
    ensures Reports(Queued(items) + [paint]) == items
    ensures Run(Empty, Queued(items) + [paint]).waiting == items[Taken(items, paint.limit)..]
  {
    hide Run, Queued, Reports, Taken;
    FirstReport(paint, []);
    assert [paint] + [] == [paint];
    ReportsBefore(items, [paint]);
    NoReports();
    assert items + [] == items && [] + items == items;
    RunQueued(Empty, items);
    RunExtends(Empty, Queued(items), paint);
  }

  lemma NoReports()
    ensures Reports([]) == []
  {
  }

  /** The order is needed: for any others a paint exists that the queue gets wrong. */
  lemma OutOfOrderIsWrong(items: seq<Item>, i: nat)
    requires i + 1 < |items| && items[i + 1].place < items[i].place
    ensures Reports(Queued(items) + [Painted(items[i].place, 0)]) == items
    ensures !Right(Queued(items) + [Painted(items[i].place, 0)])
  {
    hide Run, Queued, Reports, Taken, Unanswered, Answers;
    var paint := Painted(items[i].place, 0);
    QueueLeaves(items, paint);
    TakenStops(items, paint.limit, i);
    var n := Taken(items, paint.limit);
    assert items[n..][i + 1 - n] == items[i + 1];
    UnansweredAreLater(items, paint);
  }

  lemma {:induction false} ReportsBefore(items: seq<Item>, es: seq<Event>)
    ensures Reports(Queued(items) + es) == items + Reports(es)
  {
    hide Reports, Queued;
    QueuedFirst(items, es);
    if items == [] {
      assert [] + Reports(es) == Reports(es);
    } else {
      FirstReport(Reported(items[0]), Queued(items[1..]) + es);
      ReportsBefore(items[1..], es);
      assert [items[0]] + items[1..] == items;
    }
  }

  lemma {:induction false} RunQueued(s: State, items: seq<Item>)
    ensures Run(s, Queued(items)) == State(s.waiting + items, s.latencies)
    decreases items
  {
    if items != [] {
      var rest := items[1..];
      RunQueued(State(s.waiting + [items[0]], s.latencies), rest);
      assert Queued(items)[1..] == Queued(rest);
      Reassociated(s.waiting, [items[0]], rest);
      assert [items[0]] + rest == items;
    }
  }

  lemma {:induction false} TakenStops(items: seq<Item>, limit: int, i: nat)
    requires i < |items| && items[i].place >= limit
    ensures Taken(items, limit) <= i
  {
    if i > 0 { TakenStops(items[1..], limit, i - 1); }
  }

  lemma {:induction false} UnansweredAreLater(items: seq<Item>, paint: Event)
    requires paint.Painted?
    ensures forall x :: x in Unanswered(Queued(items) + [paint]) ==> x.place >= paint.limit
  {
    if items == [] {
      assert Queued(items) + [paint] == [paint] && [paint][1..] == [];
    } else {
      FrontAnswers(items, [paint]);
      FirstPainted(paint, items[0], []);
      assert [paint] + [] == [paint];
      UnansweredAreLater(items[1..], paint);
    }
  }

  /** The queue is right about everything that can follow exactly when it is told in order. */
  lemma RightIffInOrder(items: seq<Item>)
    ensures InOrder(items) <==> forall es :: Reports(es) == items ==> Right(es)
  {
    if InOrder(items) {
      forall es | Reports(es) == items ensures Right(es) { InOrderIsRight(es); }
    } else {
      var i, j :| 0 <= i < j < |items| && items[i].place > items[j].place;
      var k := Descent(items, i, j);
      OutOfOrderIsWrong(items, k);
    }
  }

  lemma {:induction false} Descent(items: seq<Item>, i: nat, j: nat) returns (k: nat)
    requires i < j < |items| && items[i].place > items[j].place
    ensures k + 1 < |items| && items[k + 1].place < items[k].place
    decreases j - i
  {
    if items[i + 1].place < items[i].place { k := i; } else { k := Descent(items, i + 1, j); }
  }
}
