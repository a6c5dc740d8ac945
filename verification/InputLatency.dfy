/** How long input takes to be answered on screen (src/benchmark/src/inputlatency.cpp). */
module InputLatencies {
  import opened LatencyQueue

  class InputLatency {
    var waiting: seq<int>
    var latencies: seq<real>
    ghost var events: seq<Event>

    /** The fields are what the whole run so far leaves. */
    ghost predicate Valid()
      reads this
    {
      Run(Empty, events) == State(Items(waiting), latencies)
    }

    constructor ()
      ensures Valid() && events == []
    {
      waiting, latencies, events := [], [], [];
    }

    method InputHandled(moment: int)
      requires Valid()
      modifies this
      ensures Valid() && events == old(events) + [Reported(Item(moment, moment))]
      ensures waiting == old(waiting) + [moment] && latencies == old(latencies)
    {
      RunExtends(Empty, events, Reported(Item(moment, moment)));
      waiting := waiting + [moment];
      events := events + [Reported(Item(moment, moment))];
    }

    method Painted(started: int, ended: int) returns (answered: seq<real>)
      requires Valid()
      modifies this
      ensures Valid() && events == old(events) + [Event.Painted(started, ended)]
      ensures latencies == old(latencies) + answered
      ensures |answered| <= |old(waiting)| && waiting == old(waiting)[|answered|..]
      ensures waiting != [] ==> waiting[0] >= started
      // milliseconds from each input handled before the paint started to the paint's end
      ensures forall i :: 0 <= i < |answered| ==>
                old(waiting)[i] < started && answered[i] * 1000000.0 == (ended - old(waiting)[i]) as real
    {
      hide Run, Times, Taken;
      ghost var was, n := waiting, Taken(Items(waiting), started);
      answered := [];
      while waiting != [] && waiting[0] < started
        invariant |answered| <= n && waiting == was[|answered|..]
        invariant latencies == old(latencies) && events == old(events)
        invariant n == |answered| + Taken(Items(waiting), started)
        invariant answered == Times(Items(was)[..|answered|], ended)
        invariant forall i :: 0 <= i < |answered| ==>
                    was[i] < started && answered[i] * 1000000.0 == (ended - was[i]) as real
      {
        TakenFirst(Items(waiting), started);
        answered := answered + [MillisecondsBetween(waiting[0], ended)];
        assert Items(waiting)[1..] == Items(waiting[1..]);
        TimesMore(Items(was), |answered| - 1, ended);
        waiting := waiting[1..];
      }
      TakenFirst(Items(waiting), started);
      latencies := latencies + answered;
      RunExtends(Empty, events, Event.Painted(started, ended));
      events := events + [Event.Painted(started, ended)];
      assert Items(was)[n..] == Items(waiting);
    }

    /** With the inputs in order: each answered by the first paint that started after it. */
    lemma AnsweredByFirstPaint()
      requires Valid() && InOrder(Reports(events))
      ensures latencies == Answers(events) && Items(waiting) == Unanswered(events)
    {
      InOrderIsRight(events);
    }
  }

  /** An input's place is its moment. */
  function Items(moments: seq<int>): (items: seq<Item>)
    ensures |items| == |moments|
  {
    seq(|moments|, i requires 0 <= i < |moments| => Item(moments[i], moments[i]))
  }
}
