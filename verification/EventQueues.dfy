/** The push-based event queue: values, closes and requests for the next value may come in any order. */
module EventQueues {
  datatype Answer<T> = Pending | Value(value: T) | Done

  /** What request number k has been answered, given the values accepted and whether the queue is closed. */
  function AnswerTo<T>(accepted: seq<T>, closed: bool, k: nat): Answer<T> {
    if k < |accepted| then Value(accepted[k]) else if closed then Done else Pending
  }

  class EventQueue<T> {
    var buf: seq<T>
    /** The requests that wait, by number; `answers` holds what each request's promise was resolved with. */
    var waiters: seq<nat>
    var ended: bool
    var answers: seq<Answer<T>>
    /** The values pushed before the close. */
    ghost var accepted: seq<T>

    ghost predicate Valid()
      reads this
    {
      var served := if |answers| <= |accepted| then |answers| else |accepted|;
      && buf == accepted[served..]
      && waiters == (if ended then [] else seq(|answers| - served, (i: int) requires 0 <= i => served + i))
      && forall k :: 0 <= k < |answers| ==> answers[k] == AnswerTo(accepted, ended, k)
    }

    /** Request k has got value k, or the end of the stream once it is closed; else it waits. */
    lemma AnswersInOrder(k: nat)
      requires Valid() && k < |answers|
      ensures k < |accepted| ==> answers[k] == Value(accepted[k])
      ensures k >= |accepted| ==> answers[k] == (if ended then Done else Pending)
      ensures k >= |accepted| && !ended ==> k in waiters
    {
      var served := if |answers| <= |accepted| then |answers| else |accepted|;
      if k >= |accepted| && !ended {
        assert waiters[k - served] == k;
      }
    }

    constructor ()
      ensures Valid() && accepted == [] && !ended && answers == []
    {
      buf, waiters, ended, answers, accepted := [], [], false, [], [];
    }

    /** A value goes to the longest waiting request, or into the buffer; after the close it is dropped. */
    method Push(v: T)
      requires Valid()
      modifies this
      ensures Valid() && ended == old(ended) && |answers| == |old(answers)|
      ensures accepted == if ended then old(accepted) else old(accepted) + [v]
    {
      if ended { return; }
      accepted := accepted + [v];
      if waiters != [] {
        var w := waiters[0];
        waiters := waiters[1..];
        answers := answers[w := Value(v)];
      } else {
        buf := buf + [v];
      }
    }

    /** Everyone still waiting is told there is nothing more. */
    method Close()
      requires Valid()
      modifies this
      ensures Valid() && ended && accepted == old(accepted) && |answers| == |old(answers)|
    {
      ghost var served := if |answers| <= |accepted| then |answers| else |accepted|;
      ended := true;
      var all := waiters;
      waiters := [];
      for i := 0 to |all|
        invariant ended && accepted == old(accepted) && buf == old(buf) && waiters == []
        invariant |answers| == |old(answers)|
        invariant forall k :: 0 <= k < |answers| ==>
          answers[k] == if !old(ended) && served + i <= k then Pending else AnswerTo(accepted, true, k)
      {
        answers := answers[all[i] := Done];
      }
    }

    /** Request the next value; the result is the number under which the answer appears. */
    method Next() returns (ticket: nat)
      requires Valid()
      modifies this
      ensures Valid() && ended == old(ended) && accepted == old(accepted)
      ensures ticket == |old(answers)| && |answers| == ticket + 1
    {
      ticket := |answers|;
      if buf != [] {
        answers := answers + [Value(buf[0])];
        buf := buf[1..];
      } else if ended {
        answers := answers + [Done];
      } else {
        answers := answers + [Pending];
        waiters := waiters + [ticket];
      }
    }
  }
}
