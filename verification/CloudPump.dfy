/** The mirror object and the pump that drives it, feeding the consumer's event queue. */
module CloudPump {
  import opened Prelude
  import opened EventQueues
  import opened CloudMirroring

  /** A line event is later classified by the consumer's side; the finished event carries the verdict. */
  datatype RunEvent = LineEvent(line: Line) | FinishedEvent(verdict: Verdict)

  function EventsOf(log: seq<Line>): (es: seq<RunEvent>)
    ensures |es| == |log| && forall i :: 0 <= i < |log| ==> es[i] == LineEvent(log[i])
  {
    seq(|log|, i requires 0 <= i < |log| => LineEvent(log[i]))
  }

  /** All the consumer is ever given: the lines of the log, then the verdict. */
  function Story(log: seq<Line>, verdict: Option<Verdict>): seq<RunEvent> {
    EventsOf(log) + (match verdict case None => [] case Some(v) => [FinishedEvent(v)])
  }

  lemma StoryGrows(log: seq<Line>, line: Line)
    ensures Story(log + [line], None) == Story(log, None) + [LineEvent(line)]
  {
    assert EventsOf(log + [line]) == EventsOf(log) + [LineEvent(line)];
  }

  class CloudMirror {
    var iterHigh: int
    var pulseHigh: int
    var pulseMetaEmitted: bool
    var sawLife: bool
    var lastOkPollAt: int
    var runLog: seq<Line>
    var settled: bool
    var result: Option<Verdict>
    const events: EventQueue<RunEvent>

    function View(): Mirror
      reads this
    {
      Mirror(iterHigh, pulseHigh, pulseMetaEmitted, sawLife, lastOkPollAt, runLog, result)
    }

    ghost predicate Valid()
      reads this`runLog, this`settled, this`result, events
    {
      && events.Valid()
      && settled == result.Some?
      && events.ended == settled
      && events.accepted == Story(runLog, result)
    }

    constructor (startedAt: int)
      ensures Valid() && fresh(events) && View() == Fresh(startedAt)
    {
      iterHigh, pulseHigh, pulseMetaEmitted, sawLife := -1, -1, false, false;
      lastOkPollAt, runLog, settled, result := startedAt, [], false, None;
      events := new EventQueue();
    }

    method EmitLine(line: Line)
      requires Valid() && !settled
      modifies this`runLog, events
      ensures Valid() && runLog == old(runLog) + [line]
    {
      StoryGrows(runLog, line);
      runLog := runLog + [line];
      events.Push(LineEvent(line));
    }

    /** Terminal and idempotent: the finished event, then the close. */
    method Settle(verdict: Verdict)
      requires Valid()
      modifies this`settled, this`result, events
      ensures Valid() && settled
      ensures View() == if old(settled) then old(View()) else old(View()).(verdict := Some(verdict))
    {
      if settled { return; }
      settled := true;
      result := Some(verdict);
      events.Push(FinishedEvent(verdict));
      events.Close();
    }

    method RelayStatsLines(stats: seq<Item>)
      requires Valid() && !settled
      modifies this`iterHigh, this`sawLife, this`runLog, events
      ensures Valid() && !settled && View() == RelayStats(old(View()), stats)
    {
      hide Valid;
      for i := 0 to |stats|
        invariant Valid() && !settled && View() == RelayStats(old(View()), stats[..i])
      {
        assert Init(stats[..i + 1]) == stats[..i];
        if stats[i].iter > iterHigh {
          iterHigh := stats[i].iter;
          sawLife := true;
          EmitLine(IterLine(stats[i]));
        }
      }
      assert stats[..|stats|] == stats;
    }

    method RelayPulseRows(pulse: seq<PulseRow>)
      requires Valid() && !settled
      modifies this`pulseHigh, this`pulseMetaEmitted, this`sawLife, this`runLog, events
      ensures Valid() && !settled && View() == RelayPulse(old(View()), pulse)
    {
      hide Valid, RelayRow;
      for i := 0 to |pulse|
        invariant Valid() && !settled && View() == RelayPulse(old(View()), pulse[..i])
      {
        assert Init(pulse[..i + 1]) == pulse[..i];
        RelayPulseRow(pulse[i]);
      }
      assert pulse[..|pulse|] == pulse;
    }

    method RelayPulseRow(row: PulseRow)
      requires Valid() && !settled
      modifies this`pulseHigh, this`pulseMetaEmitted, this`sawLife, this`runLog, events
      ensures Valid() && !settled && View() == RelayRow(old(View()), row)
    {
      hide Valid;
      match row {
        case MetaRow(text) =>
          if !pulseMetaEmitted {
            pulseMetaEmitted := true;
            sawLife := true;
            EmitLine(MetaLine(text));
          }
        case Numbered(it) =>
          if it.iter > pulseHigh {
            pulseHigh := it.iter;
            sawLife := true;
            EmitLine(PulseLine(it));
          }
        case Unnumbered(_) =>
      }
    }

    method PollCloud(p: Poll, at: int)
      requires Valid() && !settled
      modifies this, events
      ensures Valid() && View() == PollOnce(old(View()), p, at)
    {
      hide Story, RelayStats, RelayPulse;
      if p.Unreachable? { return; }
      lastOkPollAt := at;
      if p.running { sawLife := true; }
      RelayStatsLines(p.stats);
      RelayPulseRows(p.pulse);
      if p.gone && p.reported.Nothing? {
        EmitLine(LostLine);
        Settle(Verdict(Failed, EXIT_INFERRED));
        return;
      }
      if p.reported.Terminal? { Settle(Verdict(p.reported.status, ExitCode(p.reported.status))); }
    }

    /** The pump, over as many turns as the environment gives it. */
    method Pump(b: Budget, ticks: seq<Tick>)
      requires Valid() && View() == Fresh(b.startedAt)
      modifies this, events
      ensures Valid() && View() == AfterTicks(b, ticks)
      ensures events.accepted == Story(AfterTicks(b, ticks).log, AfterTicks(b, ticks).verdict)
      ensures events.ended == AfterTicks(b, ticks).verdict.Some?
    {
      var i := 0;
      while i < |ticks| && !settled
        invariant 0 <= i <= |ticks| && Valid() && View() == AfterTicks(b, ticks[..i])
      {
        hide Story, PollOnce;
        assert Init(ticks[..i + 1]) == ticks[..i];
        var t := ticks[i];
        i := i + 1;
        PollCloud(t.poll, t.at);
        if !settled {
          if !sawLife && t.now - b.startedAt > b.warming {
            EmitLine(LostLine);
            Settle(Verdict(Failed, EXIT_INFERRED));
          } else if t.now - lastOkPollAt > b.lostAfter {
            EmitLine(LostLine);
            Settle(Verdict(Failed, EXIT_INFERRED));
          }
        }
      }
      VerdictStays(b, ticks, i);
    }

    /**
      What a consumer of the queue has been told, however its requests fell between the pump's turns: request k
      got line k of the log, the request after the last line the verdict, and every later one the end of the
      stream; without a verdict those still wait.
     */
    lemma ConsumerReads(k: nat)
      requires Valid() && k < |events.answers|
      ensures events.answers[k] ==
                if k < |runLog| then Value(LineEvent(runLog[k]))
                else if result.None? then Pending
                else if k == |runLog| then Value(FinishedEvent(result.value))
                else Done
    {
      assert events.answers[k] == AnswerTo(Story(runLog, result), settled, k);
    }
  }

  /** Once there is a verdict, later ticks change nothing. */
  lemma {:induction false} VerdictStays(b: Budget, ticks: seq<Tick>, i: nat)
    requires i <= |ticks| && (i == |ticks| || AfterTicks(b, ticks[..i]).verdict.Some?)
    ensures AfterTicks(b, ticks) == AfterTicks(b, ticks[..i])
    decreases |ticks|
  {
    if i == |ticks| {
      assert ticks[..i] == ticks;
    } else {
      assert Init(ticks)[..i] == ticks[..i];
      if i < |ticks| - 1 {
        VerdictStays(b, Init(ticks), i);
      } else {
        assert Init(ticks) == ticks[..i];
      }
    }
  }
}
