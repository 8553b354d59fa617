/** The poll mirror of a cloud run: re-served history is logged once, and the run ends with one verdict. */
module CloudMirroring {
  import opened Prelude

  datatype Item = Item(iter: int, line: string)

  /** A row of the pulse endpoint; a row without a readable iter is never relayed. */
  datatype PulseRow = MetaRow(text: string) | Numbered(item: Item) | Unnumbered(text: string)

  datatype Status = Completed | Failed | Aborted
  datatype Verdict = Verdict(status: Status, exitCode: int)

  const EXIT_INFERRED := 255

  function ExitCode(s: Status): int {
    match s
    case Completed => 0
    case Failed => 1
    case Aborted => 130
  }

  /** `finished` of the status payload: absent, one of the three terminal words, or something else. */
  datatype Reported = Nothing | Terminal(status: Status) | OtherWord

  datatype Poll =
    | Unreachable
    | Reached(running: bool, stats: seq<Item>, pulse: seq<PulseRow>, gone: bool, reported: Reported)

  /** A line of run.log. */
  datatype Line = IterLine(item: Item) | MetaLine(text: string) | PulseLine(item: Item) | LostLine

  datatype Mirror = Mirror(iterHigh: int, pulseHigh: int, metaEmitted: bool, sawLife: bool,
                           lastOkPollAt: int, log: seq<Line>, verdict: Option<Verdict>)

  datatype Budget = Budget(startedAt: int, warming: int, lostAfter: int)

  function Fresh(startedAt: int): Mirror {
    Mirror(-1, -1, false, false, startedAt, [], None)
  }

  // ---- one poll -------------------------------------------------------------------------------------

  function RelayItem(m: Mirror, it: Item): Mirror {
    if it.iter <= m.iterHigh then m
    else m.(iterHigh := it.iter, sawLife := true, log := m.log + [IterLine(it)])
  }

  function RelayStats(m: Mirror, stats: seq<Item>): Mirror
    decreases |stats|
  {
    if stats == [] then m else RelayItem(RelayStats(m, Init(stats)), Last(stats))
  }

  function RelayRow(m: Mirror, row: PulseRow): Mirror {
    match row
    case MetaRow(text) =>
      if m.metaEmitted then m
      else m.(metaEmitted := true, sawLife := true, log := m.log + [MetaLine(text)])
    case Numbered(it) =>
      if it.iter <= m.pulseHigh then m
      else m.(pulseHigh := it.iter, sawLife := true, log := m.log + [PulseLine(it)])
    case Unnumbered(_) => m
  }

  function RelayPulse(m: Mirror, pulse: seq<PulseRow>): Mirror
    decreases |pulse|
  {
    if pulse == [] then m else RelayRow(RelayPulse(m, Init(pulse)), Last(pulse))
  }

  function Lost(m: Mirror): Mirror {
    m.(log := m.log + [LostLine], verdict := Some(Verdict(Failed, EXIT_INFERRED)))
  }

  /** Everything a reached poll relays, before its terminal lanes. */
  function Relayed(m: Mirror, p: Poll, at: int): Mirror
    requires p.Reached?
  {
    RelayPulse(RelayStats(m.(lastOkPollAt := at, sawLife := m.sawLife || p.running), p.stats), p.pulse)
  }

  function PollOnce(m: Mirror, p: Poll, at: int): Mirror {
    if p.Unreachable? then m
    else
      var r := Relayed(m, p, at);
      if p.gone && p.reported.Nothing? then Lost(r)
      else if p.reported.Terminal? then r.(verdict := Some(Verdict(p.reported.status, ExitCode(p.reported.status))))
      else r
  }

  // ---- the pump -------------------------------------------------------------------------------------

  /** One turn of the pump: the poll, the clock when its status arrived, the clock afterwards. */
  datatype Tick = Tick(poll: Poll, at: int, now: int)

  function AfterTick(m: Mirror, b: Budget, t: Tick): Mirror {
    var p := PollOnce(m, t.poll, t.at);
    if p.verdict.Some? then p
    else if !p.sawLife && t.now - b.startedAt > b.warming then Lost(p)
    else if t.now - p.lastOkPollAt > b.lostAfter then Lost(p)
    else p
  }

  /** The pump stops at the first verdict. */
  function AfterTicks(b: Budget, ticks: seq<Tick>): Mirror
    decreases |ticks|
  {
    if ticks == [] then Fresh(b.startedAt)
    else
      var m := AfterTicks(b, Init(ticks));
      if m.verdict.Some? then m else AfterTick(m, b, Last(ticks))
  }

  function StatsOf(p: Poll): seq<Item> { if p.Reached? then p.stats else [] }
  function PulseOf(p: Poll): seq<PulseRow> { if p.Reached? then p.pulse else [] }

  /** The ticks that the pump took. */
  function Taken(b: Budget, ticks: seq<Tick>): seq<Tick>
    decreases |ticks|
  {
    if ticks == [] then []
    else if AfterTicks(b, Init(ticks)).verdict.Some? then Taken(b, Init(ticks))
    else Taken(b, Init(ticks)) + [Last(ticks)]
  }

  function Served(ticks: seq<Tick>): seq<Item>
    decreases |ticks|
  {
    if ticks == [] then [] else Served(Init(ticks)) + StatsOf(Last(ticks).poll)
  }

  function ServedPulse(ticks: seq<Tick>): seq<PulseRow>
    decreases |ticks|
  {
    if ticks == [] then [] else ServedPulse(Init(ticks)) + PulseOf(Last(ticks).poll)
  }

  // ---- what is logged -------------------------------------------------------------------------------

  function Iters(log: seq<Line>): seq<Item>
    decreases |log|
  {
    if log == [] then [] else Iters(Init(log)) + (if Last(log).IterLine? then [Last(log).item] else [])
  }

  function Pulses(log: seq<Line>): seq<Item>
    decreases |log|
  {
    if log == [] then [] else Pulses(Init(log)) + (if Last(log).PulseLine? then [Last(log).item] else [])
  }

  function Metas(log: seq<Line>): seq<string>
    decreases |log|
  {
    if log == [] then [] else Metas(Init(log)) + (if Last(log).MetaLine? then [Last(log).text] else [])
  }

  function NumberedIn(rows: seq<PulseRow>): seq<Item>
    decreases |rows|
  {
    if rows == [] then [] else NumberedIn(Init(rows)) + (if Last(rows).Numbered? then [Last(rows).item] else [])
  }

  function MetasIn(rows: seq<PulseRow>): seq<string>
    decreases |rows|
  {
    if rows == [] then [] else MetasIn(Init(rows)) + (if Last(rows).MetaRow? then [Last(rows).text] else [])
  }

  /** Entry i is not negative and larger than everything before it. */
  predicate IsRecord(s: seq<Item>, i: nat)
    requires i < |s|
  {
    s[i].iter > -1 && forall j :: 0 <= j < i ==> s[j].iter < s[i].iter
  }

  /** The entries of a stream that are records when they are served. */
  function Records(s: seq<Item>): seq<Item>
    decreases |s|
  {
    if s == [] then [] else Records(Init(s)) + (if IsRecord(s, |s| - 1) then [Last(s)] else [])
  }

  /** The high-water mark is the largest record so far. */
  ghost predicate IsHigh(high: int, s: seq<Item>) {
    high >= -1 && (forall i :: 0 <= i < |s| ==> s[i].iter <= high) && (high == -1 || exists i :: 0 <= i < |s| && s[i].iter == high)
  }

  lemma RecordStep(high: int, s: seq<Item>, it: Item)
    requires IsHigh(high, s)
    ensures Records(s + [it]) == if it.iter <= high then Records(s) else Records(s) + [it]
    ensures IsHigh(if it.iter <= high then high else it.iter, s + [it])
  {
    var t := s + [it];
    assert Init(t) == s && Last(t) == it;
    assert Records(t) == Records(s) + (if IsRecord(t, |s|) then [it] else []);
    hide Records;
    if it.iter <= high {
      if high > -1 {
        var i :| 0 <= i < |s| && s[i].iter == high;
        assert t[i].iter == high;
        assert !IsRecord(t, |s|);
      }
      forall i | 0 <= i < |t|
        ensures t[i].iter <= high
      {
        if i < |s| { assert t[i] == s[i]; }
      }
    } else {
      assert t[|s|].iter == it.iter;
      assert forall j :: 0 <= j < |s| ==> t[j] == s[j];
    }
  }

  lemma LogGrew(log: seq<Line>, x: Line)
    ensures Iters(log + [x]) == if x.IterLine? then Iters(log) + [x.item] else Iters(log)
    ensures Pulses(log + [x]) == if x.PulseLine? then Pulses(log) + [x.item] else Pulses(log)
    ensures Metas(log + [x]) == if x.MetaLine? then Metas(log) + [x.text] else Metas(log)
  {
    assert Init(log + [x]) == log;
  }

  lemma RowsGrew(rows: seq<PulseRow>, x: PulseRow)
    ensures NumberedIn(rows + [x]) == if x.Numbered? then NumberedIn(rows) + [x.item] else NumberedIn(rows)
    ensures MetasIn(rows + [x]) == if x.MetaRow? then MetasIn(rows) + [x.text] else MetasIn(rows)
  {
    assert Init(rows + [x]) == rows;
  }

  /** What the log and the marks owe to everything served so far. */
  ghost predicate Mirrors(m: Mirror, served: seq<Item>, rows: seq<PulseRow>) {
    && IsHigh(m.iterHigh, served) && Iters(m.log) == Records(served)
    && IsHigh(m.pulseHigh, NumberedIn(rows)) && Pulses(m.log) == Records(NumberedIn(rows))
    && m.metaEmitted == (MetasIn(rows) != []) && Metas(m.log) == MetasIn(rows)[..if MetasIn(rows) == [] then 0 else 1]
  }

  lemma ItemMirrors(m: Mirror, served: seq<Item>, rows: seq<PulseRow>, it: Item)
    requires Mirrors(m, served, rows)
    ensures Mirrors(RelayItem(m, it), served + [it], rows)
  {
    hide IsHigh, Records, Iters, Pulses, Metas;
    RecordStep(m.iterHigh, served, it);
    LogGrew(m.log, IterLine(it));
  }

  lemma {:induction false} StatsMirror(m: Mirror, served: seq<Item>, rows: seq<PulseRow>, stats: seq<Item>)
    requires Mirrors(m, served, rows)
    ensures Mirrors(RelayStats(m, stats), served + stats, rows)
    decreases |stats|
  {
    if stats == [] {
      assert served + stats == served;
    } else {
      hide Mirrors, RelayItem;
      StatsMirror(m, served, rows, Init(stats));
      ItemMirrors(RelayStats(m, Init(stats)), served + Init(stats), rows, Last(stats));
      OneMore(served, stats);
    }
  }

  lemma RowMirrors(m: Mirror, served: seq<Item>, rows: seq<PulseRow>, row: PulseRow)
    requires Mirrors(m, served, rows)
    ensures Mirrors(RelayRow(m, row), served, rows + [row])
  {
    hide IsHigh, Records, Iters, Pulses, Metas, NumberedIn, MetasIn;
    RowsGrew(rows, row);
    match row
    case MetaRow(text) => LogGrew(m.log, MetaLine(text));
    case Numbered(it) =>
      RecordStep(m.pulseHigh, NumberedIn(rows), it);
      LogGrew(m.log, PulseLine(it));
    case Unnumbered(_) =>
  }

  lemma {:induction false} PulseMirrors(m: Mirror, served: seq<Item>, rows: seq<PulseRow>, pulse: seq<PulseRow>)
    requires Mirrors(m, served, rows)
    ensures Mirrors(RelayPulse(m, pulse), served, rows + pulse)
    decreases |pulse|
  {
    if pulse == [] {
      assert rows + pulse == rows;
    } else {
      hide Mirrors, RelayRow;
      PulseMirrors(m, served, rows, Init(pulse));
      RowMirrors(RelayPulse(m, Init(pulse)), served, rows + Init(pulse), Last(pulse));
      OneMore(rows, pulse);
    }
  }

  lemma LostMirrors(m: Mirror, served: seq<Item>, rows: seq<PulseRow>)
    requires Mirrors(m, served, rows)
    ensures Mirrors(Lost(m), served, rows)
  {
    LogGrew(m.log, LostLine);
  }

  /** Bookkeeping that touches neither the log nor what was seen. */
  lemma BookkeepingMirrors(m: Mirror, at: int, life: bool, verdict: Option<Verdict>, served: seq<Item>, rows: seq<PulseRow>)
    requires Mirrors(m, served, rows)
    ensures Mirrors(m.(lastOkPollAt := at, sawLife := life, verdict := verdict), served, rows)
  {
  }

  lemma RelayedMirrors(m: Mirror, p: Poll, at: int, served: seq<Item>, rows: seq<PulseRow>)
    requires Mirrors(m, served, rows) && p.Reached?
    ensures Mirrors(Relayed(m, p, at), served + p.stats, rows + p.pulse)
  {
    hide Mirrors, RelayStats, RelayPulse;
    var started := m.(lastOkPollAt := at, sawLife := m.sawLife || p.running);
    BookkeepingMirrors(m, at, m.sawLife || p.running, m.verdict, served, rows);
    StatsMirror(started, served, rows, p.stats);
    PulseMirrors(RelayStats(started, p.stats), served + p.stats, rows, p.pulse);
  }

  lemma PollMirrors(m: Mirror, p: Poll, at: int, served: seq<Item>, rows: seq<PulseRow>)
    requires Mirrors(m, served, rows)
    ensures Mirrors(PollOnce(m, p, at), served + StatsOf(p), rows + PulseOf(p))
  {
    hide Mirrors, Relayed, Lost;
    if p.Unreachable? {
      assert served + [] == served && rows + [] == rows;
    } else {
      RelayedMirrors(m, p, at, served, rows);
      var r := Relayed(m, p, at);
      LostMirrors(r, served + p.stats, rows + p.pulse);
      if p.reported.Terminal? {
        BookkeepingMirrors(r, r.lastOkPollAt, r.sawLife, Some(Verdict(p.reported.status, ExitCode(p.reported.status))),
                           served + p.stats, rows + p.pulse);
      }
    }
  }

  lemma TickMirrors(m: Mirror, b: Budget, t: Tick, served: seq<Item>, rows: seq<PulseRow>)
    requires Mirrors(m, served, rows)
    ensures Mirrors(AfterTick(m, b, t), served + StatsOf(t.poll), rows + PulseOf(t.poll))
  {
    hide Mirrors, PollOnce, Lost;
    PollMirrors(m, t.poll, t.at, served, rows);
    LostMirrors(PollOnce(m, t.poll, t.at), served + StatsOf(t.poll), rows + PulseOf(t.poll));
  }

  /**
    Whatever the polls serve, in whatever order and however often: the iteration lines of the log are the
    records of everything served, the pulse lines likewise, and the first meta row is logged once.
   */
  lemma {:induction false} LogIsRecordsOfServed(b: Budget, ticks: seq<Tick>)
    ensures Mirrors(AfterTicks(b, ticks), Served(Taken(b, ticks)), ServedPulse(Taken(b, ticks)))
    decreases |ticks|
  {
    if ticks != [] {
      hide Mirrors, AfterTick;
      var m, taken := AfterTicks(b, Init(ticks)), Taken(b, Init(ticks));
      LogIsRecordsOfServed(b, Init(ticks));
      if m.verdict.None? {
        TickMirrors(m, b, Last(ticks), Served(taken), ServedPulse(taken));
        assert Init(taken + [Last(ticks)]) == taken;
      }
    }
  }

  // ---- polls that re-serve one history ----------------------------------------------------------------

  /** One strictly increasing history of iterations. */
  ghost predicate IsHistory(h: seq<Item>) {
    (h != [] ==> h[0].iter >= 0) && forall i, j :: 0 <= i < j < |h| ==> h[i].iter < h[j].iter
  }

  ghost predicate ServesPrefixes(ticks: seq<Tick>, h: seq<Item>) {
    forall i :: 0 <= i < |ticks| ==> StatsOf(ticks[i].poll) <= h
  }

  /** The length of the longest prefix served. */
  function Longest(ticks: seq<Tick>): nat
    decreases |ticks|
  {
    if ticks == [] then 0 else Larger(|StatsOf(Last(ticks).poll)|, Longest(Init(ticks)))
  }

  /** The mark after the first n iterations of a history. */
  function Mark(h: seq<Item>, n: nat): int
    requires n <= |h|
  {
    if n == 0 then -1 else h[n - 1].iter
  }

  lemma MarkOrder(h: seq<Item>, n: nat, k: nat)
    requires IsHistory(h) && n <= |h| && k < |h|
    ensures h[k].iter <= Mark(h, n) <==> k < n
  {
  }

  lemma HistoryStep(s: seq<Item>, h: seq<Item>, m: nat, k: nat)
    requires IsHistory(h) && k <= m <= |h| && k < |h| && Records(s) == h[..m] && IsHigh(Mark(h, m), s)
    ensures Records(s + [h[k]]) == h[..Larger(k + 1, m)] && IsHigh(Mark(h, Larger(k + 1, m)), s + [h[k]])
  {
    hide Records, IsHigh, IsHistory;
    RecordStep(Mark(h, m), s, h[k]);
    MarkOrder(h, m, k);
    assert h[..k + 1] == h[..k] + [h[k]];
  }

  lemma {:induction false} HistoryServedAgain(s: seq<Item>, h: seq<Item>, n: nat, p: seq<Item>)
    requires IsHistory(h) && n <= |h| && p <= h && Records(s) == h[..n] && IsHigh(Mark(h, n), s)
    ensures Records(s + p) == h[..Larger(|p|, n)] && IsHigh(Mark(h, Larger(|p|, n)), s + p)
    decreases |p|
  {
    hide Records, IsHigh, IsHistory, Mark;
    if p == [] {
      assert s + p == s;
    } else {
      PrefixEnd(p, h);
      HistoryServedAgain(s, h, n, Init(p));
      HistoryStep(s + Init(p), h, Larger(|p| - 1, n), |p| - 1);
      OneMore(s, p);
    }
  }

  lemma PrefixEnd(p: seq<Item>, h: seq<Item>)
    requires p != [] && p <= h
    ensures Init(p) <= h && Last(p) == h[|p| - 1]
  {
  }

  lemma {:induction false} RecordsOfPrefixes(ticks: seq<Tick>, h: seq<Item>)
    requires IsHistory(h) && ServesPrefixes(ticks, h)
    ensures var n := Longest(ticks);
            n <= |h| && Records(Served(ticks)) == h[..n] && IsHigh(Mark(h, n), Served(ticks))
    decreases |ticks|
  {
    if ticks != [] {
      hide Records, IsHigh, IsHistory;
      var stats := StatsOf(Last(ticks).poll);
      assert stats <= h;
      assert forall i :: 0 <= i < |ticks| - 1 ==> Init(ticks)[i] == ticks[i];
      assert ServesPrefixes(Init(ticks), h);
      hide ServesPrefixes, StatsOf;
      RecordsOfPrefixes(Init(ticks), h);
      HistoryServedAgain(Served(Init(ticks)), h, Longest(Init(ticks)), stats);
    }
  }

  lemma OneTickMore(b: Budget, ticks: seq<Tick>)
    requires ticks != []
    ensures var m := AfterTicks(b, Init(ticks));
            if m.verdict.Some? then AfterTicks(b, ticks) == m && Taken(b, ticks) == Taken(b, Init(ticks))
            else AfterTicks(b, ticks) == AfterTick(m, b, Last(ticks)) && Taken(b, ticks) == Taken(b, Init(ticks)) + [Last(ticks)]
  {
  }

  lemma NoTicks(b: Budget)
    ensures Taken(b, []) == []
  {
  }

  lemma {:induction false} TakenFromTicks(b: Budget, ticks: seq<Tick>)
    ensures Taken(b, ticks) <= ticks
    ensures AfterTicks(b, ticks).verdict.None? ==> Taken(b, ticks) == ticks
    decreases |ticks|
  {
    hide AfterTicks, AfterTick, Taken;
    if ticks == [] {
      NoTicks(b);
    } else {
      OneTickMore(b, ticks);
      var front, taken := Init(ticks), Taken(b, Init(ticks));
      TakenFromTicks(b, front);
      assert ticks == front + [Last(ticks)];
      if AfterTicks(b, front).verdict.Some? {
        assert taken <= front && front <= ticks;
      } else {
        assert Taken(b, ticks) == ticks;
      }
    }
  }

  /**
    When every poll serves a prefix of one history, the iteration lines of the log are the longest prefix
    served, each line once and in order.
   */
  lemma LogIsLongestPrefix(b: Budget, ticks: seq<Tick>, h: seq<Item>)
    requires IsHistory(h) && ServesPrefixes(ticks, h)
    ensures Longest(Taken(b, ticks)) <= |h|
    ensures Iters(AfterTicks(b, ticks).log) == h[..Longest(Taken(b, ticks))]
  {
    LogIsRecordsOfServed(b, ticks);
    TakenFromTicks(b, ticks);
    hide IsHigh, Records, IsHistory, AfterTicks, Taken;
    RecordsOfPrefixes(Taken(b, ticks), h);
  }

  /** An iteration served late, after a later one, is never logged. */
  lemma LateIterationIsLost(a: Item, c: Item)
    requires 0 <= a.iter < c.iter
    ensures Records([c, a]) == [c]
  {
    assert Init([c, a]) == [c] && Init([c]) == [];
    assert IsRecord([c], 0) && Records([c]) == [] + [c];
    assert !IsRecord([c, a], 1) by { assert [c, a][0].iter >= a.iter; }
  }

  // ---- the verdict ----------------------------------------------------------------------------------

  ghost predicate EndsWell(m: Mirror) {
    && (m.verdict.Some? ==> m.verdict.value.exitCode == EXIT_INFERRED || m.verdict.value.exitCode == ExitCode(m.verdict.value.status))
    && ((m.verdict.Some? && m.verdict.value.exitCode == EXIT_INFERRED) <==> LostLine in m.log)
  }

  lemma {:induction false} RelayAddsNoLoss(m: Mirror, stats: seq<Item>, pulse: seq<PulseRow>)
    ensures var r := RelayPulse(RelayStats(m, stats), pulse);
            r.verdict == m.verdict && (LostLine in r.log <==> LostLine in m.log)
    decreases |stats| + |pulse|
  {
    if pulse != [] {
      RelayAddsNoLoss(m, stats, Init(pulse));
    } else if stats != [] {
      RelayAddsNoLoss(m, Init(stats), []);
    }
  }

  /** A run is written off by inference exactly when the log says it was lost. */
  lemma {:induction false} InferredIffLost(b: Budget, ticks: seq<Tick>)
    ensures EndsWell(AfterTicks(b, ticks))
    decreases |ticks|
  {
    if ticks != [] {
      var m, t := AfterTicks(b, Init(ticks)), Last(ticks);
      InferredIffLost(b, Init(ticks));
      if m.verdict.None? && t.poll.Reached? {
        RelayAddsNoLoss(m.(lastOkPollAt := t.at, sawLife := m.sawLife || t.poll.running), t.poll.stats, t.poll.pulse);
      }
    }
  }

  /** A verdict other than an inferred one is what the last poll taken reported, after all its lines. */
  lemma {:induction false} VerdictIsReported(b: Budget, ticks: seq<Tick>)
    ensures var (m, taken) := (AfterTicks(b, ticks), Taken(b, ticks));
            m.verdict.Some? && m.verdict.value.exitCode != EXIT_INFERRED ==>
              taken != [] && Last(taken).poll.Reached? && Last(taken).poll.reported == Terminal(m.verdict.value.status)
    decreases |ticks|
  {
    if ticks != [] {
      var m, t := AfterTicks(b, Init(ticks)), Last(ticks);
      VerdictIsReported(b, Init(ticks));
      if m.verdict.None? && t.poll.Reached? {
        RelayAddsNoLoss(m.(lastOkPollAt := t.at, sawLife := m.sawLife || t.poll.running), t.poll.stats, t.poll.pulse);
      }
    }
  }

  // ---- when a run ends, from what the polls showed ------------------------------------------------------

  /** A line of the run itself. */
  ghost predicate SignOfLife(l: Line) {
    l.IterLine? || l.PulseLine? || l.MetaLine?
  }

  /** A poll found the run going, or something of it was logged. */
  ghost predicate Alive(taken: seq<Tick>, log: seq<Line>) {
    || (exists t :: t in taken && t.poll.Reached? && t.poll.running)
    || (exists l :: l in log && SignOfLife(l))
  }

  /** When a poll last got through; the start of the run before any did. */
  function LastHeard(b: Budget, taken: seq<Tick>): int
    decreases |taken|
  {
    if taken == [] then b.startedAt
    else if Last(taken).poll.Reached? then Last(taken).at
    else LastHeard(b, Init(taken))
  }

  lemma {:induction false} RelayLife(m: Mirror, stats: seq<Item>, pulse: seq<PulseRow>)
    ensures var r := RelayPulse(RelayStats(m, stats), pulse);
            && m.log <= r.log && r.lastOkPollAt == m.lastOkPollAt
            && (r.sawLife <==> m.sawLife || exists l :: l in r.log[|m.log|..] && SignOfLife(l))
    decreases |stats| + |pulse|
  {
    if pulse != [] {
      RelayLife(m, stats, Init(pulse));
      var before := RelayPulse(RelayStats(m, stats), Init(pulse));
      RowLife(m, before, Last(pulse));
    } else if stats != [] {
      RelayLife(m, Init(stats), []);
      ItemLife(m, RelayStats(m, Init(stats)), Last(stats));
    }
  }

  lemma GrewAlive(m: Mirror, log: seq<Line>, x: Line)
    requires m.log <= log && SignOfLife(x)
    ensures x in (log + [x])[|m.log|..]
  {
    assert (log + [x])[|m.log|..] == log[|m.log|..] + [x];
  }

  lemma RowLife(m: Mirror, r: Mirror, row: PulseRow)
    requires m.log <= r.log && (r.sawLife <==> m.sawLife || exists l :: l in r.log[|m.log|..] && SignOfLife(l))
    ensures var r' := RelayRow(r, row);
            && m.log <= r'.log && r'.lastOkPollAt == r.lastOkPollAt
            && (r'.sawLife <==> m.sawLife || exists l :: l in r'.log[|m.log|..] && SignOfLife(l))
  {
    match row
    case MetaRow(text) => GrewAlive(m, r.log, MetaLine(text));
    case Numbered(it) => GrewAlive(m, r.log, PulseLine(it));
    case Unnumbered(_) =>
  }

  lemma ItemLife(m: Mirror, r: Mirror, it: Item)
    requires m.log <= r.log && (r.sawLife <==> m.sawLife || exists l :: l in r.log[|m.log|..] && SignOfLife(l))
    ensures var r' := RelayItem(r, it);
            && m.log <= r'.log && r'.lastOkPollAt == r.lastOkPollAt
            && (r'.sawLife <==> m.sawLife || exists l :: l in r'.log[|m.log|..] && SignOfLife(l))
  {
    GrewAlive(m, r.log, IterLine(it));
  }

  /** What one poll does to the signs of life. */
  ghost predicate Heard(b: Budget, taken: seq<Tick>, m: Mirror) {
    (m.sawLife <==> Alive(taken, m.log)) && m.lastOkPollAt == LastHeard(b, taken)
  }

  lemma OneMoreTick(b: Budget, taken: seq<Tick>, t: Tick)
    ensures forall x :: x in taken + [t] <==> x in taken || x == t
    ensures LastHeard(b, taken + [t]) == if t.poll.Reached? then t.at else LastHeard(b, taken)
  {
    assert Init(taken + [t]) == taken;
  }

  lemma RelayedHeard(b: Budget, taken: seq<Tick>, m: Mirror, t: Tick)
    requires Heard(b, taken, m) && t.poll.Reached?
    ensures Heard(b, taken + [t], Relayed(m, t.poll, t.at))
  {
    hide LastHeard, RelayStats, RelayPulse, SignOfLife;
    OneMoreTick(b, taken, t);
    var started := m.(lastOkPollAt := t.at, sawLife := m.sawLife || t.poll.running);
    var r := Relayed(m, t.poll, t.at);
    RelayLife(started, t.poll.stats, t.poll.pulse);
    assert r.log == m.log + r.log[|m.log|..];
    assert forall l :: l in r.log <==> l in m.log || l in r.log[|m.log|..];
    if t.poll.running {
      assert t in taken + [t];
    }
  }

  lemma PollHeard(b: Budget, taken: seq<Tick>, m: Mirror, t: Tick)
    requires Heard(b, taken, m)
    ensures Heard(b, taken + [t], PollOnce(m, t.poll, t.at))
  {
    OneMoreTick(b, taken, t);
    if t.poll.Reached? {
      hide Relayed, LastHeard, Alive;
      RelayedHeard(b, taken, m, t);
      LossIsNoLife(taken + [t], Relayed(m, t.poll, t.at).log);
    }
  }

  lemma TickHeard(b: Budget, taken: seq<Tick>, m: Mirror, t: Tick)
    requires Heard(b, taken, m)
    ensures Heard(b, taken + [t], AfterTick(m, b, t))
  {
    hide PollOnce;
    PollHeard(b, taken, m, t);
    var p := PollOnce(m, t.poll, t.at);
    assert forall l :: l in p.log + [LostLine] <==> l in p.log || l == LostLine;
  }

  lemma {:induction false} HeardSoFar(b: Budget, ticks: seq<Tick>)
    ensures Heard(b, Taken(b, ticks), AfterTicks(b, ticks))
    decreases |ticks|
  {
    if ticks != [] {
      hide AfterTick, Heard;
      HeardSoFar(b, Init(ticks));
      TickHeard(b, Taken(b, Init(ticks)), AfterTicks(b, Init(ticks)), Last(ticks));
    }
  }

  /** The turn ends the run by inference: gone without a word, never alive in its warming time, or out of reach. */
  ghost predicate GivenUp(b: Budget, taken: seq<Tick>, log: seq<Line>, t: Tick) {
    || (t.poll.Reached? && t.poll.gone && t.poll.reported.Nothing?)
    || (!Alive(taken, log) && t.now - b.startedAt > b.warming)
    || t.now - LastHeard(b, taken) > b.lostAfter
  }

  /** The verdict of one more turn, as far as the run had none. */
  ghost function Decided(b: Budget, taken: seq<Tick>, log: seq<Line>, t: Tick): Option<Verdict> {
    if t.poll.Reached? && t.poll.reported.Terminal? then
      (match t.poll.reported.status
       case Completed => Some(Verdict(Completed, 0))
       case Failed => Some(Verdict(Failed, 1))
       case Aborted => Some(Verdict(Aborted, 130)))
    else if GivenUp(b, taken, log, t) then Some(Verdict(Failed, 255))
    else None
  }

  /**
    A turn decides the run exactly by what the polls so far showed: a reported end with its exit code, or an
    inferred failure when the instance is gone without a report, when no sign of life came within the warming
    time, or when no poll has got through for too long.
   */
  lemma VerdictIff(b: Budget, ticks: seq<Tick>, t: Tick)
    requires AfterTicks(b, ticks).verdict.None?
    ensures var m := AfterTicks(b, ticks + [t]);
            m.verdict == Decided(b, ticks + [t], m.log, t)
  {
    hide PollOnce, Taken, Alive, LastHeard;
    var m, all := AfterTicks(b, ticks), ticks + [t];
    assert Init(all) == ticks && Last(all) == t;
    HeardSoFar(b, ticks);
    TakenFromTicks(b, ticks);
    PollHeard(b, ticks, m, t);
    PollVerdict(m, t);
    var p := PollOnce(m, t.poll, t.at);
    LossIsNoLife(all, p.log);
    LossIsNoLife(all, AfterTick(m, b, t).log);
  }

  lemma LossIsNoLife(taken: seq<Tick>, log: seq<Line>)
    ensures Alive(taken, log + [LostLine]) <==> Alive(taken, log)
  {
    assert forall l :: l in log + [LostLine] <==> l in log || l == LostLine;
  }

  lemma PollVerdict(m: Mirror, t: Tick)
    requires m.verdict.None?
    ensures var p := PollOnce(m, t.poll, t.at);
            p.verdict ==
              if t.poll.Unreachable? then None
              else if t.poll.gone && t.poll.reported.Nothing? then Some(Verdict(Failed, 255))
              else if t.poll.reported.Terminal? then
                Some(Verdict(t.poll.reported.status,
                             match t.poll.reported.status case Completed => 0 case Failed => 1 case Aborted => 130))
              else None
  {
    if t.poll.Reached? {
      RelayAddsNoLoss(m.(lastOkPollAt := t.at, sawLife := m.sawLife || t.poll.running), t.poll.stats, t.poll.pulse);
    }
  }
}
